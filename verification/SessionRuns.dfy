/**
 Everything that can happen to login sessions at once: the three statements of any number of
 refreshes, sign-outs and logins, interleaved in any order.
 */
module SessionRuns {
  import opened Clock
  import opened Options
  import opened Sessions

  // ---- Everything that can happen at once ----

  /** Where a refresh request stands: before its UPDATE, before its read, before its DELETE. */
  datatype Request = Presented(named: Named, at: Time) | Missed(named: Named, at: Time) | Revoking(session: int)

  datatype Entry =
    | Rotation(session: int, generation: int)
    | Answered(session: int, presented: int, issued: int)

  datatype State = State(
    clock: Time, rows: Rows, used: set<int>, requests: map<int, Request>, seen: set<int>, log: seq<Entry>)

  datatype Event =
    | Tick(span: nat)
    | Login(user: int, id: int)
    | Present(request: int, token: Token)
    | TryUpdate(request: int)
    | Read(request: int)
    | Delete(request: int)
    | SignOut(token: Token)
    | SignOutAll(user: int, keep: Option<int>)

  const INITIAL: State := State(0, map[], {}, map[], {}, [])

  /** One event; one that cannot happen changes nothing. No request is under way for 90 days. */
  function Next(s: State, e: Event): State {
    match e
    case Tick(span) => s.(clock := s.clock + span)
    case Login(user, id) =>
      if id in s.used then s
      else s.(rows := AfterOpen(s.rows, user, id, s.clock), used := s.used + {id})
    case Present(r, token) =>
      var parsed := ParseRefreshToken(token);
      if r in s.seen || parsed.None? then s
      else s.(requests := s.requests[r := Presented(parsed.value, s.clock)], seen := s.seen + {r})
    case TryUpdate(r) =>
      if r !in s.requests || !s.requests[r].Presented? || s.clock - s.requests[r].at >= REFRESH_LIFETIME then s
      else
        var n, now := s.requests[r].named, s.requests[r].at;
        if Rotates(s.rows, n, now) then
          s.(rows := AfterUpdate(s.rows, n, now), requests := s.requests - {r},
             log := s.log + [Rotation(n.session, n.generation), Answered(n.session, n.generation, n.generation + 1)])
        else s.(requests := s.requests[r := Missed(n, now)])
    case Read(r) =>
      if r !in s.requests || !s.requests[r].Missed? then s
      else
        var n, now := s.requests[r].named, s.requests[r].at;
        (match Judge(s.rows, n, now)
         case Gone => s.(requests := s.requests - {r})
         case Grace(generation) =>
           s.(requests := s.requests - {r}, log := s.log + [Answered(n.session, n.generation, generation)])
         case Reused => s.(requests := s.requests[r := Revoking(n.session)]))
    case Delete(r) =>
      if r !in s.requests || !s.requests[r].Revoking? then s
      else s.(rows := s.rows - {s.requests[r].session}, requests := s.requests - {r})
    case SignOut(token) => s.(rows := AfterClose(s.rows, token))
    case SignOutAll(user, keep) => s.(rows := AfterCloseAll(s.rows, user, keep))
  }

  function Run(s: State, events: seq<Event>): State {
    if events == [] then s else Next(Run(s, events[..|events| - 1]), events[|events| - 1])
  }

  // ---- Each generation is rotated once, and answered with the next ----

  /** The generations of a session that were rotated away, in order. */
  function Rotated(log: seq<Entry>, session: int): seq<int> {
    if log == [] then []
    else
      var last := log[|log| - 1];
      Rotated(log[..|log| - 1], session)
      + (if last.Rotation? && last.session == session then [last.generation] else [])
  }

  /** 0, 1, 2, ... */
  predicate CountsUp(s: seq<int>) { forall i | 0 <= i < |s| :: s[i] == i }

  ghost predicate Inv(s: State) {
    && (forall id | id in s.rows :: id in s.used && s.rows[id].generation == |Rotated(s.log, id)| && s.rows[id].expiresAt < s.clock + REFRESH_LIFETIME + 1)
    && (forall id :: CountsUp(Rotated(s.log, id)) && (id !in s.used ==> Rotated(s.log, id) == []))
    && (forall i | 0 <= i < |s.log| && s.log[i].Answered? ::
          s.log[i].issued == s.log[i].presented + 1 && s.log[i].issued <= |Rotated(s.log, s.log[i].session)|)
    && (forall r | r in s.requests :: r in s.seen && (!s.requests[r].Revoking? ==> s.requests[r].at <= s.clock))
  }

  lemma RotatedAppend(log: seq<Entry>, e: Entry, session: int)
    ensures Rotated(log + [e], session)
         == Rotated(log, session) + (if e.Rotation? && e.session == session then [e.generation] else [])
  {
    assert (log + [e])[..|log|] == log;
  }

  lemma UpdateKeepsInv(s: State, r: int)
    requires Inv(s)
    ensures Inv(Next(s, TryUpdate(r)))
  {
    var t := Next(s, TryUpdate(r));
    if t.log != s.log {
      var n := s.requests[r].named;
      var rotation, answer := Rotation(n.session, n.generation), Answered(n.session, n.generation, n.generation + 1);
      assert t.log == (s.log + [rotation]) + [answer];
      forall id ensures Rotated(t.log, id) == Rotated(s.log, id) + (if id == n.session then [n.generation] else []) {
        RotatedAppend(s.log, rotation, id);
        RotatedAppend(s.log + [rotation], answer, id);
      }
    }
  }

  lemma ReadKeepsInv(s: State, r: int)
    requires Inv(s)
    ensures Inv(Next(s, Read(r)))
  {
    var t := Next(s, Read(r));
    if t.log != s.log {
      var n := s.requests[r].named;
      var answer := t.log[|s.log|];
      forall id ensures Rotated(t.log, id) == Rotated(s.log, id) {
        RotatedAppend(s.log, answer, id);
      }
    }
  }

  lemma NextKeepsInv(s: State, e: Event)
    requires Inv(s)
    ensures Inv(Next(s, e))
  {
    match e
    case TryUpdate(r) => UpdateKeepsInv(s, r);
    case Read(r) => ReadKeepsInv(s, r);
    case _ =>
  }

  lemma {:induction false} RunKeepsInv(s: State, events: seq<Event>)
    requires Inv(s)
    ensures Inv(Run(s, events))
  {
    if events != [] {
      RunKeepsInv(s, events[..|events| - 1]);
      NextKeepsInv(Run(s, events[..|events| - 1]), events[|events| - 1]);
    }
  }

  /**
   Under every interleaving: the rotations of a session are of the generations 0, 1, 2, ..., each
   once, and a token of generation g is only ever answered with one of generation g + 1.
   */
  lemma EachGenerationRotatesOnce(events: seq<Event>, session: int, i: nat)
    ensures var log := Run(INITIAL, events).log;
            && CountsUp(Rotated(log, session))
            && (i < |log| && log[i].Answered? ==> log[i].issued == log[i].presented + 1)
  {
    RunKeepsInv(INITIAL, events);
  }

  // ---- A token used too late ends its session for good ----

  /** Presented against this row the token is a copy: two generations old, or past its grace. */
  predicate IsStale(row: Session, n: Named, at: Time) {
    && row.expiresAt > at
    && n.generation < row.generation
    && (n.generation == row.generation - 1 ==> row.rotatedAt.Some? && at - row.rotatedAt.value > ROTATION_GRACE)
  }

  /** The session is gone, or the request is on its way to end it. */
  predicate Dooms(s: State, r: int, n: Named, at: Time) {
    n.session !in s.rows
    || (r in s.requests
        && (s.requests[r] == Revoking(n.session)
            || ((s.requests[r] == Presented(n, at) || s.requests[r] == Missed(n, at)) && IsStale(s.rows[n.session], n, at))))
  }

  lemma NextStillDooms(s: State, e: Event, r: int, n: Named, at: Time)
    requires Inv(s) && n.session in s.used && at <= s.clock && r in s.seen && Dooms(s, r, n, at)
    ensures Dooms(Next(s, e), r, n, at)
  {
  }

  lemma NextOnlyGrows(s: State, e: Event)
    ensures var t := Next(s, e); s.clock <= t.clock && s.used <= t.used && s.seen <= t.seen && s.log <= t.log
  {
  }

  lemma {:induction false} RunStillDooms(s: State, events: seq<Event>, r: int, n: Named, at: Time)
    requires Inv(s) && n.session in s.used && at <= s.clock && r in s.seen && Dooms(s, r, n, at)
    ensures var t := Run(s, events);
            Dooms(t, r, n, at) && n.session in t.used && at <= t.clock && r in t.seen
  {
    if events != [] {
      var init := events[..|events| - 1];
      RunStillDooms(s, init, r, n, at);
      RunKeepsInv(s, init);
      NextStillDooms(Run(s, init), events[|events| - 1], r, n, at);
      NextOnlyGrows(Run(s, init), events[|events| - 1]);
    }
  }

  /**
   A stale token on an unexpired session: whatever else goes on, once its request is over the
   session is deleted.
   */
  lemma StaleTokenEndsTheSession(s: State, events: seq<Event>, r: int)
    requires Inv(s) && r in s.requests && s.requests[r].Presented?
    requires var n := s.requests[r].named; n.session in s.rows && IsStale(s.rows[n.session], n, s.requests[r].at)
    ensures r !in Run(s, events).requests ==> s.requests[r].named.session !in Run(s, events).rows
  {
    RunStillDooms(s, events, r, s.requests[r].named, s.requests[r].at);
  }

  /** A deleted session never comes back, and no token naming it is ever answered again. */
  lemma {:induction false} DeletedStaysDeleted(s: State, events: seq<Event>, session: int)
    requires session in s.used && session !in s.rows
    ensures var t := Run(s, events);
            && session in t.used && session !in t.rows
            && s.log <= t.log && (forall i | |s.log| <= i < |t.log| :: t.log[i].session != session)
            && forall user, now :: !IsOpen(t.rows, user, session, now)
  {
    if events != [] {
      var init := events[..|events| - 1];
      DeletedStaysDeleted(s, init, session);
    }
  }

  // ---- Signing out ends a session for good ----

  lemma {:induction false} RunAppend(s: State, events: seq<Event>, more: seq<Event>)
    ensures Run(s, events + more) == Run(Run(s, events), more)
    decreases |more|
  {
    if more == [] {
      assert events + more == events;
    } else {
      var n := |more| - 1;
      assert (events + more)[..|events| + n] == events + more[..n];
      RunAppend(s, events, more[..n]);
    }
  }

  /** From one state to another nothing was said of a session, and nobody has it open in the end. */
  ghost predicate IsOver(s: State, t: State, session: int) {
    && s.log <= t.log && (forall i | |s.log| <= i < |t.log| :: t.log[i].session != session)
    && session !in t.rows
    && forall user, at :: !IsOpen(t.rows, user, session, at)
  }

  /** Whatever was under way and whatever follows: any genuine token of a session signs it out, for good. */
  lemma SignOutIsForGood(before: seq<Event>, session: int, generation: nat, after: seq<Event>)
    requires session in Run(INITIAL, before).used
    ensures IsOver(Run(INITIAL, before),
                   Run(INITIAL, before + [SignOut(RefreshToken(session, generation))] + after), session)
  {
    var out := [SignOut(RefreshToken(session, generation))];
    RunAppend(INITIAL, before + out, after);
    RunAppend(INITIAL, before, out);
    assert out[..0] == [];
    var s := Run(INITIAL, before);
    assert Run(s, out) == Next(s, out[0]);
    DeletedStaysDeleted(Run(s, out), after, session);
  }

  /** So does signing out everywhere, for every session of the user but the one to keep. */
  lemma SignOutAllIsForGood(before: seq<Event>, user: int, keep: Option<int>, session: int, after: seq<Event>)
    requires var s := Run(INITIAL, before);
             session in s.used && session in s.rows && s.rows[session].user == user && keep != Some(session)
    ensures IsOver(Run(INITIAL, before), Run(INITIAL, before + [SignOutAll(user, keep)] + after), session)
  {
    var out := [SignOutAll(user, keep)];
    RunAppend(INITIAL, before + out, after);
    RunAppend(INITIAL, before, out);
    assert out[..0] == [];
    var s := Run(INITIAL, before);
    assert Run(s, out) == Next(s, out[0]);
    DeletedStaysDeleted(Run(s, out), after, session);
  }

  // ---- What one undisturbed refresh does ----

  /** The three statements of a refresh with nothing in between do what `RotateSession` does. */
  lemma UninterruptedRefresh(s: State, r: int, token: Token)
    requires Inv(s) && r !in s.seen
    ensures var t := Next(Next(Next(Next(s, Present(r, token)), TryUpdate(r)), Read(r)), Delete(r));
            && t.rows == AfterRotate(s.rows, token, s.clock)
            && r !in t.requests && t.used == s.used && t.clock == s.clock
            && (Answer(s.rows, token, s.clock) == None ==> t.log == s.log)
            && (Answer(s.rows, token, s.clock).Some? ==>
                  |t.log| > |s.log| && token.Token? && Answer(s.rows, token, s.clock).value.Token?
                  && t.log[|t.log| - 1] == Answered(token.session, token.generation, Answer(s.rows, token, s.clock).value.generation))
  {
  }

  /** A current token is answered with the next, and its session is open for ninety more days to its user alone. */
  lemma CurrentTokenIsRenewed(rows: Rows, session: int, now: Time)
    requires session in rows && rows[session].generation >= 0 && now < rows[session].expiresAt
    ensures var row := rows[session]; var token := RefreshToken(session, row.generation);
            var after := AfterRotate(rows, token, now);
            && Answer(rows, token, now) == Some(RefreshToken(session, row.generation + 1))
            && session in after && after[session].generation == row.generation + 1
            && (forall user, at :: IsOpen(after, user, session, at) <==> user == row.user && at < now + 7_776_000_000_000)
            && (forall at :: SameOpen(after, rows, {session}, at))
  {
  }

  /** The grace is sixty seconds to the microsecond: one answer and no change, or the end. */
  lemma GraceExactly(rows: Rows, session: int, generation: int, now: Time)
    requires session in rows && generation >= 0 && rows[session].generation == generation + 1
    requires rows[session].rotatedAt.Some? && rows[session].expiresAt > now
    ensures var token := RefreshToken(session, generation);
            if now - rows[session].rotatedAt.value <= 60_000_000
            then AfterRotate(rows, token, now) == rows && Answer(rows, token, now) == Some(RefreshToken(session, generation + 1))
            else session !in AfterRotate(rows, token, now) && Answer(rows, token, now) == None
  {
  }

  /** The successor works at once, and its predecessor gets the same successor within the grace. */
  lemma TwoTabsGetTheSameSuccessor(rows: Rows, session: int, now: Time, later: Time)
    requires session in rows && rows[session].generation >= 0 && now < rows[session].expiresAt
    requires now <= later <= now + ROTATION_GRACE
    ensures var token := RefreshToken(session, rows[session].generation);
            var once := AfterRotate(rows, token, now);
            && Answer(rows, token, now) == Answer(once, token, later)
            && Answer(rows, token, now).Some?
            && Answer(once, Answer(rows, token, now).value, later).Some?
  {
  }

  /** A token that is no MAC of the server's is answered with nothing and does nothing. */
  lemma ForgedTokenDoesNothing(rows: Rows, token: Token, now: Time)
    requires forall session, generation :: generation >= 0 ==> token != RefreshToken(session, generation)
    ensures Answer(rows, token, now) == None && AfterRotate(rows, token, now) == rows && AfterClose(rows, token) == rows
  {
    if token.Token? {
      assert token.mac == MacOf(token.session, token.generation) ==> token == RefreshToken(token.session, token.generation);
    }
  }
}
