/**
 One login shared by any number of browser tabs (frontend-next/src/api/client.ts and token.ts)
 against the server of `Sessions`, with time: one stored pair of tokens, at most one refresh in
 flight a tab, and no exchange over 30 seconds.
 */
module RefreshProtocol {
  import opened Clock
  import opened Options
  import opened Sessions

  const ACCESS_LIFETIME: Time := 60 * 15 * SECOND
  const EXPIRY_MARGIN: Time := 30 * SECOND
  /** How long a request or a refresh may take from being sent to being answered. */
  const EXCHANGE_LIMIT: Time := 30 * SECOND

  /** The stored tokens: the access token, told by the expiry it names, and the refresh token's generation. */
  datatype Pair = Pair(expiry: Time, generation: int)

  /** The `exp` of an access token issued now: whole seconds. */
  function Expiry(now: Time): Time { (now + ACCESS_LIFETIME) / SECOND * SECOND }

  /** `expiresSoon` */
  predicate ExpiresSoon(expiry: Time, now: Time) { expiry - EXPIRY_MARGIN <= now }

  /** How a refresh ends: with a new pair, with a 401, or otherwise (offline, a 5xx). */
  datatype Renewal = Answered(pair: Pair) | Unauthorized | Failed

  /** What `renew` does to the stored pair once the answer is there: a 401 clears it only if it is still the one sent. */
  function AfterRenewal(stored: Option<Pair>, sent: int, answer: Renewal): Option<Pair> {
    match answer
    case Answered(pair) => Some(pair)
    case Unauthorized => if stored.Some? && stored.value.generation == sent then None else stored
    case Failed => stored
  }

  // ---- The client's middleware, one tab ----

  datatype Outgoing = Plain | Bearer(expiry: Time) | AfterRefresh(sends: Option<int>)

  /** What `onRequest` makes of a request, up to its first await: one refresh at a time, whoever needs it. */
  function Outgo(stored: Option<Pair>, inFlight: Option<int>, now: Time): Outgoing {
    if stored.None? then Plain
    else if ExpiresSoon(stored.value.expiry, now) then
      AfterRefresh(if inFlight.None? then Some(stored.value.generation) else None)
    else Bearer(stored.value.expiry)
  }

  /** How it goes out after the await: with the access token that is stored by then. */
  function Released(stored: Option<Pair>): Outgoing {
    if stored.None? then Plain else Bearer(stored.value.expiry)
  }

  datatype Handling = Return | Again(expiry: Time) | RenewFirst

  class Tab {
    var stored: Option<Pair>
    var inFlight: Option<int>
    var copies: map<int, Time>

    constructor (stored: Option<Pair>)
      ensures this.stored == stored && inFlight == None && copies == map[]
    {
      this.stored := stored;
      inFlight := None;
      copies := map[];
    }

    /** `refresh`: the refresh under way, or a new one with the stored token. */
    method Refresh() returns (sends: Option<int>)
      modifies this`inFlight
      ensures sends == if old(inFlight).None? && stored.Some? then Some(stored.value.generation) else None
      ensures inFlight == if sends.Some? then sends else old(inFlight)
    {
      sends := None;
      if inFlight.None? && stored.Some? {
        sends := Some(stored.value.generation);
        inFlight := sends;
      }
    }

    method OnRequest(id: int, now: Time) returns (out: Outgoing)
      modifies this
      ensures stored == old(stored) && out == Outgo(stored, old(inFlight), now)
      ensures stored.None? ==> out == Plain
      ensures stored.Some? && now < stored.value.expiry - 30_000_000 ==> out == Bearer(stored.value.expiry)
      ensures stored.Some? && now >= stored.value.expiry - 30_000_000 ==>
                out == AfterRefresh(if old(inFlight).None? then Some(stored.value.generation) else None)
      ensures inFlight == if out.AfterRefresh? && out.sends.Some? then out.sends else old(inFlight)
      ensures copies == if out.Bearer? then old(copies)[id := out.expiry] else old(copies)
    {
      if stored.None? {
        return Plain;
      }
      if ExpiresSoon(stored.value.expiry, now) {
        var sends := Refresh();
        return AfterRefresh(sends);
      }
      copies := copies[id := stored.value.expiry];
      out := Bearer(stored.value.expiry);
    }

    /** The rest of `onRequest`, once the refresh it waited for is over. */
    method OnRefreshed(id: int) returns (out: Outgoing)
      modifies this`copies
      ensures out == Released(stored)
      ensures copies == if out.Bearer? then old(copies)[id := out.expiry] else old(copies)
    {
      if stored.None? {
        return Plain;
      }
      copies := copies[id := stored.value.expiry];
      out := Bearer(stored.value.expiry);
    }

    /** The end of a refresh: the stored pair changes and the next refresh may start. */
    method Renewed(answer: Renewal) returns (ok: bool)
      requires inFlight.Some?
      modifies this
      ensures stored == AfterRenewal(old(stored), old(inFlight).value, answer)
      ensures answer.Answered? ==> stored == Some(answer.pair)
      ensures !answer.Answered? && stored != old(stored) ==> answer.Unauthorized? && stored == None
      ensures answer.Unauthorized? && old(stored).Some? ==> (stored.None? <==> old(stored).value.generation == old(inFlight).value)
      ensures inFlight == None && copies == old(copies) && ok == answer.Answered?
    {
      ok := answer.Answered?;
      if answer.Answered? {
        stored := Some(answer.pair);
      } else if answer.Unauthorized? && stored.Some? && stored.value.generation == inFlight.value {
        stored := None;
      }
      inFlight := None;
    }

    /** `onResponse`, up to its first await: only an authenticated request that was refused is tried again. */
    method OnResponse(id: int, refused: bool) returns (next: Handling)
      modifies this
      ensures copies == old(copies) - {id} && stored == old(stored) && inFlight == old(inFlight)
      ensures next == Return <==> !refused || id !in old(copies)
      ensures next.Again? ==> stored.Some? && next.expiry == stored.value.expiry && next.expiry != old(copies)[id]
      ensures next.RenewFirst? ==> stored.None? || stored.value.expiry == old(copies)[id]
    {
      var sent := if id in copies then Some(copies[id]) else None;
      copies := copies - {id};
      if !refused || sent.None? {
        return Return;
      }
      if stored.Some? && stored.value.expiry != sent.value {
        return Again(stored.value.expiry);
      }
      next := RenewFirst;
    }

    /** The end of `onResponse`: unless a second try was accepted, whatever is stored by then is dropped. */
    method OnRetried(accepted: bool)
      modifies this`stored
      ensures stored == if accepted then old(stored) else None
    {
      if !accepted {
        stored := None;
      }
    }
  }

  /**
   The last lines of `onResponse` undo the care of `renew`. A request was refused with the token
   that is stored, and a refresh came back without a new pair while `others` is stored: the pair is
   gone in any case, and `renew` alone would have kept it exactly if the refresh did not end in a
   401, or another tab had stored a newer pair meanwhile.
   */
  method RefusalDropsThePair(id: int, sent: Pair, others: Option<Pair>, answer: Renewal)
      returns (afterRenewal: Option<Pair>, afterAll: Option<Pair>)
    requires !answer.Answered?
    ensures afterAll == None
    ensures afterRenewal.Some? <==> others.Some? && (answer.Failed? || others.value.generation != sent.generation)
  {
    var tab := new Tab(Some(sent));
    var out := tab.OnRequest(id, sent.expiry - EXPIRY_MARGIN - 1);
    var next := tab.OnResponse(id, true);
    assert next == RenewFirst;
    var sends := tab.Refresh();
    tab.stored := others;
    var ok := tab.Renewed(answer);
    afterRenewal := tab.stored;
    tab.OnRetried(ok);
    afterAll := tab.stored;
  }

  // ---- Tabs, storage and server together ----

  /** How far a refresh has got: on its way, its clock read, its UPDATE without a match, or answered. */
  datatype Phase = Travelling | Arrived(now: Time) | Unmatched(now: Time) | Replied(answer: Renewal)

  datatype Exchange = Exchange(sentAt: Time, generation: int, phase: Phase)

  datatype Sent = Sent(at: Time, expiry: Time)

  datatype World = World(
    clock: Time, rows: Rows, stored: Option<Pair>,
    refreshing: map<int, Exchange>, waiting: map<int, int>, requests: map<int, Sent>,
    refused: bool, revoked: bool, idle: bool)

  /** The one login of the model. */
  const SESSION := 0
  const USER := 0

  datatype Event =
    | Wait(span: nat)
    | Request(tab: int, id: int)
    | Arrive(tab: int)
    | Match(tab: int)
    | Look(tab: int)
    | Deliver(tab: int)
    | Authenticate(id: int)

  function LoggedIn(now: Time): World {
    World(now, AfterOpen(map[], USER, SESSION, now), Some(Pair(Expiry(now), 0)), map[], map[], map[], false, false, false)
  }

  /** No exchange is lost or takes longer than the limit. */
  predicate MayWait(s: World, until: Time) {
    && (forall tab | tab in s.refreshing :: until <= s.refreshing[tab].sentAt + EXCHANGE_LIMIT)
    && (forall id | id in s.requests :: until <= s.requests[id].at + EXCHANGE_LIMIT)
  }

  /** The refresh this tab has under way, told by the generation it sent. */
  function InFlight(s: World, tab: int): Option<int> {
    if tab in s.refreshing then Some(s.refreshing[tab].generation) else None
  }

  /** The requests that waited for this tab's refresh go out with whatever is stored now. */
  function Requests(s: World, tab: int, stored: Option<Pair>): map<int, Sent> {
    match Released(stored)
    case Bearer(expiry) =>
      map id | id in s.requests.Keys + s.waiting.Keys && (id in s.requests || s.waiting[id] == tab) ::
        (if id in s.waiting && s.waiting[id] == tab then Sent(s.clock, expiry) else s.requests[id])
    case _ => s.requests
  }

  function Next(s: World, e: Event): World {
    match e
    case Wait(span) => if MayWait(s, s.clock + span) then s.(clock := s.clock + span) else s
    case Request(tab, id) =>
      if id in s.requests || id in s.waiting then s
      else
        (match Outgo(s.stored, InFlight(s, tab), s.clock)
         case Plain => s
         case Bearer(expiry) => s.(requests := s.requests[id := Sent(s.clock, expiry)])
         case AfterRefresh(None) => s.(waiting := s.waiting[id := tab])
         case AfterRefresh(Some(generation)) =>
           s.(waiting := s.waiting[id := tab], refreshing := s.refreshing[tab := Exchange(s.clock, generation, Travelling)]))
    case Arrive(tab) =>
      if tab in s.refreshing && s.refreshing[tab].phase.Travelling?
      then s.(refreshing := s.refreshing[tab := s.refreshing[tab].(phase := Arrived(s.clock))])
      else s
    case Match(tab) =>
      if tab in s.refreshing && s.refreshing[tab].phase.Arrived? then
        var x := s.refreshing[tab];
        var n, now := Named(SESSION, x.generation), x.phase.now;
        if Rotates(s.rows, n, now) then
          s.(rows := AfterUpdate(s.rows, n, now),
             refreshing := s.refreshing[tab := x.(phase := Replied(Answered(Pair(Expiry(s.clock), x.generation + 1))))])
        else s.(refreshing := s.refreshing[tab := x.(phase := Unmatched(now))])
      else s
    case Look(tab) =>
      if tab in s.refreshing && s.refreshing[tab].phase.Unmatched? then
        var x := s.refreshing[tab];
        (match Judge(s.rows, Named(SESSION, x.generation), x.phase.now)
         case Gone =>
           s.(refreshing := s.refreshing[tab := x.(phase := Replied(Unauthorized))], idle := true)
         case Grace(generation) =>
           s.(refreshing := s.refreshing[tab := x.(phase := Replied(Answered(Pair(Expiry(s.clock), generation))))])
         case Reused =>
           s.(rows := s.rows - {SESSION}, revoked := true, refreshing := s.refreshing[tab := x.(phase := Replied(Unauthorized))]))
      else s
    case Deliver(tab) =>
      if tab in s.refreshing && s.refreshing[tab].phase.Replied? then
        var x := s.refreshing[tab];
        var stored := AfterRenewal(s.stored, x.generation, x.phase.answer);
        s.(stored := stored, refreshing := s.refreshing - {tab}, requests := Requests(s, tab, stored),
           waiting := map id | id in s.waiting && s.waiting[id] != tab :: s.waiting[id])
      else s
    case Authenticate(id) =>
      if id in s.requests then
        s.(requests := s.requests - {id},
           refused := s.refused || !(s.requests[id].expiry > s.clock && IsOpen(s.rows, USER, SESSION, s.clock)))
      else s
  }

  function Run(s: World, events: seq<Event>): World {
    if events == [] then s else Next(Run(s, events[..|events| - 1]), events[|events| - 1])
  }

  // ---- The invariant ----

  /** When the present generation began: at its rotation, or at the login. */
  function Since(s: World): Time
    requires SESSION in s.rows
  {
    s.rows[SESSION].expiresAt - REFRESH_LIFETIME
  }

  predicate RowIsSound(s: World) {
    && SESSION in s.rows && s.rows[SESSION].user == USER
    && 0 <= s.rows[SESSION].generation && Since(s) <= s.clock
    && (s.rows[SESSION].generation > 0 ==> s.rows[SESSION].rotatedAt == Some(Since(s)))
  }

  /** An answer on its way back carries the present generation and an access token just issued. */
  predicate IsFresh(s: World, sentAt: Time, pair: Pair)
    requires SESSION in s.rows
  {
    && pair.generation == s.rows[SESSION].generation
    && pair.expiry >= sentAt + ACCESS_LIFETIME - SECOND
    && pair.expiry >= Since(s) + ACCESS_LIFETIME - SECOND
    && pair.expiry <= Since(s) + ROTATION_GRACE + ACCESS_LIFETIME
  }

  /** A copy of the refresh token on its way: the current one, long after the last rotation, or the one just replaced. */
  predicate ExchangeIsSound(s: World, x: Exchange)
    requires SESSION in s.rows
  {
    && x.sentAt <= s.clock <= x.sentAt + EXCHANGE_LIMIT && 0 <= x.generation
    && (x.phase.Arrived? || x.phase.Unmatched? ==> x.sentAt <= x.phase.now <= s.clock)
    && (if x.generation == s.rows[SESSION].generation then
          && x.sentAt >= Since(s) + ACCESS_LIFETIME - SECOND - EXPIRY_MARGIN
          && (x.phase.Unmatched? ==> x.phase.now >= s.rows[SESSION].expiresAt)
          && (x.phase.Replied? ==> x.phase.answer.Unauthorized?)
        else
          && x.generation == s.rows[SESSION].generation - 1
          && x.sentAt <= Since(s) + EXCHANGE_LIMIT
          && (x.phase.Replied? && x.phase.answer.Answered? ==> IsFresh(s, x.sentAt, x.phase.answer.pair)))
    && (x.phase.Replied? ==> !x.phase.answer.Failed?)
    && (x.phase.Replied? && x.phase.answer.Unauthorized? ==> s.idle)
  }

  /** The exchange that rotated, whose answer is not stored yet. */
  predicate IsRotating(s: World, tab: int)
    requires SESSION in s.rows
  {
    && tab in s.refreshing
    && s.refreshing[tab].generation == s.rows[SESSION].generation - 1
    && s.refreshing[tab].sentAt <= Since(s)
    && s.refreshing[tab].phase.Replied? && s.refreshing[tab].phase.answer.Answered?
  }

  ghost predicate StoredIsSound(s: World)
    requires SESSION in s.rows
  {
    match s.stored
    case None => s.idle
    case Some(p) =>
      && 0 <= p.generation
      && p.expiry <= Since(s) + ROTATION_GRACE + ACCESS_LIFETIME
      && (p.generation == s.rows[SESSION].generation ==> p.expiry >= Since(s) + ACCESS_LIFETIME - SECOND)
      && (p.generation != s.rows[SESSION].generation ==>
            p.generation == s.rows[SESSION].generation - 1 && exists tab :: IsRotating(s, tab))
  }

  ghost predicate Inv(s: World) {
    && RowIsSound(s) && !s.revoked && !s.refused
    && StoredIsSound(s)
    && (forall tab | tab in s.refreshing :: ExchangeIsSound(s, s.refreshing[tab]))
    && (forall id | id in s.waiting :: s.waiting[id] in s.refreshing)
    && (forall id | id in s.requests :: RequestIsSound(s, s.requests[id]))
  }

  /** A request on its way holds a token that outlives it. */
  predicate RequestIsSound(s: World, r: Sent)
    requires SESSION in s.rows
  {
    && r.at <= s.clock <= r.at + EXCHANGE_LIMIT
    && r.at + EXCHANGE_LIMIT < r.expiry < s.rows[SESSION].expiresAt
  }

  lemma TickKeeps(s: World, span: nat)
    requires Inv(s)
    ensures Inv(Next(s, Wait(span)))
  {
    var t := Next(s, Wait(span));
    if s.stored.Some? && s.stored.value.generation != s.rows[SESSION].generation {
      var tab :| IsRotating(s, tab);
      assert IsRotating(t, tab);
    }
  }

  /** While the stored pair is a generation behind, the rotation was less than an exchange ago. */
  lemma BehindIsRecent(s: World)
    requires Inv(s) && s.stored.Some? && s.stored.value.generation != s.rows[SESSION].generation
    ensures s.clock <= Since(s) + EXCHANGE_LIMIT
  {
    var tab :| IsRotating(s, tab);
    assert ExchangeIsSound(s, s.refreshing[tab]);
  }

  /** The rotating exchange is still there after anything that leaves it and the row alone. */
  lemma StoredStaysSound(s: World, t: World)
    requires Inv(s) && RowIsSound(t) && t.rows == s.rows && t.stored == s.stored && t.idle == s.idle
    requires forall tab | IsRotating(s, tab) :: tab in t.refreshing && t.refreshing[tab] == s.refreshing[tab]
    ensures StoredIsSound(t)
  {
    if s.stored.Some? && s.stored.value.generation != s.rows[SESSION].generation {
      var tab :| IsRotating(s, tab);
      assert IsRotating(t, tab);
    }
  }

  lemma NewExchangeIsSound(s: World)
    requires Inv(s) && s.stored.Some? && ExpiresSoon(s.stored.value.expiry, s.clock)
    ensures ExchangeIsSound(s, Exchange(s.clock, s.stored.value.generation, Travelling))
  {
    if s.stored.value.generation != s.rows[SESSION].generation {
      BehindIsRecent(s);
    }
  }

  lemma WaitingKeeps(s: World, tab: int, id: int)
    requires Inv(s) && tab in s.refreshing
    ensures Inv(s.(waiting := s.waiting[id := tab]))
  {
    var t := s.(waiting := s.waiting[id := tab]);
    StoredStaysSound(s, t);
    forall other | other in t.refreshing ensures ExchangeIsSound(t, t.refreshing[other]) {
      assert ExchangeIsSound(s, s.refreshing[other]);
    }
    forall sent | sent in t.requests ensures RequestIsSound(t, t.requests[sent]) {
      assert RequestIsSound(s, s.requests[sent]);
    }
  }

  lemma StartKeeps(s: World, tab: int)
    requires Inv(s) && s.stored.Some? && ExpiresSoon(s.stored.value.expiry, s.clock) && tab !in s.refreshing
    ensures Inv(s.(refreshing := s.refreshing[tab := Exchange(s.clock, s.stored.value.generation, Travelling)]))
  {
    var t := s.(refreshing := s.refreshing[tab := Exchange(s.clock, s.stored.value.generation, Travelling)]);
    StoredStaysSound(s, t);
    NewExchangeIsSound(s);
    forall other | other in t.refreshing ensures ExchangeIsSound(t, t.refreshing[other]) {
      if other in s.refreshing {
        assert ExchangeIsSound(s, s.refreshing[other]);
      }
    }
    forall sent | sent in t.requests ensures RequestIsSound(t, t.requests[sent]) {
      assert RequestIsSound(s, s.requests[sent]);
    }
  }

  lemma SentKeeps(s: World, id: int)
    requires Inv(s) && s.stored.Some? && !ExpiresSoon(s.stored.value.expiry, s.clock)
    ensures Inv(s.(requests := s.requests[id := Sent(s.clock, s.stored.value.expiry)]))
  {
    var t := s.(requests := s.requests[id := Sent(s.clock, s.stored.value.expiry)]);
    StoredStaysSound(s, t);
    SentIsSound(s);
    forall other | other in t.refreshing ensures ExchangeIsSound(t, t.refreshing[other]) {
      assert ExchangeIsSound(s, s.refreshing[other]);
    }
    forall sent | sent in t.requests ensures RequestIsSound(t, t.requests[sent]) {
      if sent != id {
        assert RequestIsSound(s, s.requests[sent]);
      }
    }
  }

  lemma SentIsSound(s: World)
    requires Inv(s) && s.stored.Some? && !ExpiresSoon(s.stored.value.expiry, s.clock)
    ensures RequestIsSound(s, Sent(s.clock, s.stored.value.expiry))
  {
  }

  lemma RequestKeeps(s: World, tab: int, id: int)
    requires Inv(s)
    ensures Inv(Next(s, Request(tab, id)))
  {
    if s.stored.Some? {
      if !ExpiresSoon(s.stored.value.expiry, s.clock) {
        SentKeeps(s, id);
      } else if tab in s.refreshing {
        WaitingKeeps(s, tab, id);
      } else {
        StartKeeps(s, tab);
        WaitingKeeps(s.(refreshing := s.refreshing[tab := Exchange(s.clock, s.stored.value.generation, Travelling)]), tab, id);
      }
    }
  }

  lemma ArriveKeeps(s: World, tab: int)
    requires Inv(s)
    ensures Inv(Next(s, Arrive(tab)))
  {
    var t := Next(s, Arrive(tab));
    if s.stored.Some? && s.stored.value.generation != s.rows[SESSION].generation {
      var rotating :| IsRotating(s, rotating);
      assert IsRotating(t, rotating);
    }
  }

  /** When a generation is rotated, no copy of the one before it is on its way any more. */
  lemma RotationIsAlone(s: World, tab: int, other: int)
    requires Inv(s) && tab in s.refreshing && other in s.refreshing
    requires s.refreshing[tab].generation == s.rows[SESSION].generation
    ensures s.refreshing[other].generation == s.rows[SESSION].generation
    ensures s.stored.Some? ==> s.stored.value.generation == s.rows[SESSION].generation
  {
    assert ExchangeIsSound(s, s.refreshing[tab]) && ExchangeIsSound(s, s.refreshing[other]);
    if s.stored.Some? && s.stored.value.generation != s.rows[SESSION].generation {
      BehindIsRecent(s);
    }
  }

  lemma RotationKeeps(s: World, tab: int)
    requires Inv(s) && tab in s.refreshing && s.refreshing[tab].phase.Arrived?
    requires Rotates(s.rows, Named(SESSION, s.refreshing[tab].generation), s.refreshing[tab].phase.now)
    ensures Inv(Next(s, Match(tab)))
  {
    var t := Next(s, Match(tab));
    var x := s.refreshing[tab];
    assert ExchangeIsSound(s, x);
    RotationIsAlone(s, tab, tab);
    assert RowIsSound(t);
    forall other | other in t.refreshing ensures ExchangeIsSound(t, t.refreshing[other]) {
      RotationIsAlone(s, tab, other);
      assert ExchangeIsSound(s, s.refreshing[other]);
    }
    assert IsRotating(t, tab);
    forall id | id in t.requests ensures RequestIsSound(t, t.requests[id]) {
      assert RequestIsSound(s, s.requests[id]);
    }
  }

  lemma UpdateKeeps(s: World, tab: int)
    requires Inv(s)
    ensures Inv(Next(s, Match(tab)))
  {
    if tab in s.refreshing && s.refreshing[tab].phase.Arrived? {
      var x := s.refreshing[tab];
      assert ExchangeIsSound(s, x);
      if Rotates(s.rows, Named(SESSION, x.generation), x.phase.now) {
        RotationKeeps(s, tab);
      } else {
        StoredStaysSound(s, Next(s, Match(tab)));
      }
    }
  }

  /** The later read never finds a reuse: a replaced token always arrives within its grace. */
  lemma CopyIsWithinGrace(s: World, tab: int)
    requires Inv(s) && tab in s.refreshing && s.refreshing[tab].phase.Unmatched?
    ensures var x := s.refreshing[tab];
            var verdict := Judge(s.rows, Named(SESSION, x.generation), x.phase.now);
            if x.generation == s.rows[SESSION].generation then verdict == Gone
            else verdict == Grace(s.rows[SESSION].generation)
  {
    assert ExchangeIsSound(s, s.refreshing[tab]);
  }

  /** All that the read changes is the exchange, and perhaps that the session has run out. */
  lemma ReadAnswers(s: World, tab: int) returns (x: Exchange)
    requires Inv(s) && tab in s.refreshing && s.refreshing[tab].phase.Unmatched?
    ensures var t := Next(s, Look(tab));
            && t == s.(refreshing := s.refreshing[tab := x], idle := t.idle) && (s.idle ==> t.idle)
            && ExchangeIsSound(t, x)
  {
    CopyIsWithinGrace(s, tab);
    assert ExchangeIsSound(s, s.refreshing[tab]);
    x := Next(s, Look(tab)).refreshing[tab];
  }

  lemma ReadKeeps(s: World, tab: int)
    requires Inv(s)
    ensures Inv(Next(s, Look(tab)))
  {
    if tab in s.refreshing && s.refreshing[tab].phase.Unmatched? {
      var x := ReadAnswers(s, tab);
      AnswerKeeps(s, tab, x, Next(s, Look(tab)).idle);
    }
  }

  lemma AnswerKeeps(s: World, tab: int, x: Exchange, idle: bool)
    requires Inv(s) && tab in s.refreshing && s.refreshing[tab].phase.Unmatched? && (s.idle ==> idle)
    requires ExchangeIsSound(s.(refreshing := s.refreshing[tab := x], idle := idle), x)
    ensures Inv(s.(refreshing := s.refreshing[tab := x], idle := idle))
  {
    var t := s.(refreshing := s.refreshing[tab := x], idle := idle);
    if s.stored.Some? && s.stored.value.generation != s.rows[SESSION].generation {
      var rotating :| IsRotating(s, rotating);
      assert IsRotating(t, rotating);
    }
    forall other | other in t.refreshing ensures ExchangeIsSound(t, t.refreshing[other]) {
      assert other in s.refreshing && ExchangeIsSound(s, s.refreshing[other]);
    }
  }

  lemma AuthenticateKeeps(s: World, id: int)
    requires Inv(s)
    ensures Inv(Next(s, Authenticate(id)))
  {
    var t := Next(s, Authenticate(id));
    if s.stored.Some? && s.stored.value.generation != s.rows[SESSION].generation {
      var rotating :| IsRotating(s, rotating);
      assert IsRotating(t, rotating);
    }
  }

  lemma {:induction false} RunKeeps(s: World, events: seq<Event>)
    requires Inv(s)
    ensures Inv(Run(s, events))
  {
    if events != [] {
      var before := Run(s, events[..|events| - 1]);
      RunKeeps(s, events[..|events| - 1]);
      match events[|events| - 1]
      case Wait(span) => TickKeeps(before, span);
      case Request(tab, id) => RequestKeeps(before, tab, id);
      case Arrive(tab) => ArriveKeeps(before, tab);
      case Match(tab) => UpdateKeeps(before, tab);
      case Look(tab) => ReadKeeps(before, tab);
      case Deliver(tab) =>
      case Authenticate(id) => AuthenticateKeeps(before, id);
    }
  }

  /**
   Whatever the tabs do and however their exchanges overlap: the server never takes a refresh
   for a copy and never refuses a request, and the tokens stay stored unless a refresh came when
   the session had been idle for its whole lifetime.
   */
  lemma TabsNeverLoseTheSession(start: Time, events: seq<Event>)
    ensures var s := Run(LoggedIn(start), events);
            && !s.revoked && !s.refused && SESSION in s.rows
            && (s.stored.None? ==> s.idle)
  {
    RunKeeps(LoggedIn(start), events);
  }

  /** A refresh of the current pair that nothing comes in between of. */
  function Refreshed(s: World, tab: int, id: int): World {
    Next(Next(Next(Next(s, Request(tab, id)), Arrive(tab)), Match(tab)), Deliver(tab))
  }

  lemma RequestStartsRefresh(s: World, tab: int, id: int)
    requires s.stored.Some? && tab !in s.refreshing && id !in s.requests && id !in s.waiting
    requires s.stored.value.expiry - 30_000_000 <= s.clock
    ensures Next(s, Request(tab, id))
         == s.(waiting := s.waiting[id := tab],
               refreshing := s.refreshing[tab := Exchange(s.clock, s.stored.value.generation, Travelling)])
  {
  }

  lemma ArrivesAndMatches(s: World, tab: int, generation: int)
    requires tab in s.refreshing && s.refreshing[tab] == Exchange(s.clock, generation, Travelling)
    requires Rotates(s.rows, Named(SESSION, generation), s.clock)
    ensures var t := Next(Next(s, Arrive(tab)), Match(tab));
            && t == s.(rows := AfterUpdate(s.rows, Named(SESSION, generation), s.clock), refreshing := t.refreshing)
            && tab in t.refreshing
            && t.refreshing[tab] == Exchange(s.clock, generation, Replied(Answered(Pair(Expiry(s.clock), generation + 1))))
  {
  }

  lemma DeliversAnswer(s: World, tab: int, id: int, pair: Pair)
    requires tab in s.refreshing && s.refreshing[tab].phase == Replied(Answered(pair)) && id in s.waiting && s.waiting[id] == tab
    ensures var t := Next(s, Deliver(tab));
            && t.stored == Some(pair) && t.rows == s.rows && tab !in t.refreshing && id !in t.waiting
            && id in t.requests && t.requests[id] == Sent(s.clock, pair.expiry)
  {
  }

  /** It renews the pair, and the request that waited for it goes out with the new access token. */
  lemma RefreshRenewsThePair(s: World, tab: int, id: int)
    requires Inv(s) && s.stored.Some? && tab !in s.refreshing && id !in s.requests && id !in s.waiting
    requires s.stored.value.expiry - 30_000_000 <= s.clock < s.rows[SESSION].expiresAt
    requires s.stored.value.generation == s.rows[SESSION].generation
    ensures var t := Refreshed(s, tab, id);
            && t.stored == Some(Pair(Expiry(s.clock), s.stored.value.generation + 1))
            && t.stored.value.expiry <= s.clock + 900_000_000 < t.stored.value.expiry + 1_000_000
            && SESSION in t.rows && t.rows[SESSION].generation == s.stored.value.generation + 1
            && id in t.requests && t.requests[id] == Sent(s.clock, Expiry(s.clock)) && id !in t.waiting && tab !in t.refreshing
  {
    var generation := s.stored.value.generation;
    RequestStartsRefresh(s, tab, id);
    var a := Next(s, Request(tab, id));
    ArrivesAndMatches(a, tab, generation);
    DeliversAnswer(Next(Next(a, Arrive(tab)), Match(tab)), tab, id, Pair(Expiry(s.clock), generation + 1));
  }

  /** "Idle" means what it says: a refresh read its clock ninety days or more after the last rotation. */
  lemma IdleIsNinetyDays(start: Time, events: seq<Event>, e: Event)
    requires var s := Run(LoggedIn(start), events); !s.idle && Next(s, e).idle
    ensures var s := Run(LoggedIn(start), events);
            && SESSION in s.rows
            && e.Look? && e.tab in s.refreshing && s.refreshing[e.tab].phase.Unmatched?
            && s.refreshing[e.tab].phase.now >= Since(s) + REFRESH_LIFETIME
  {
    RunKeeps(LoggedIn(start), events);
    var s := Run(LoggedIn(start), events);
    CopyIsWithinGrace(s, e.tab);
    assert ExchangeIsSound(s, s.refreshing[e.tab]);
  }

  /** The days are needed: a login left alone for ninety days is signed out by its first refresh. */
  lemma IdleTooLongSignsOut(start: Time)
    ensures Next(Next(Next(Next(Next(Next(LoggedIn(start), Wait(REFRESH_LIFETIME)), Request(1, 1)), Arrive(1)), Match(1)),
              Look(1)), Deliver(1)).stored == None
  {
    var a := Next(LoggedIn(start), Wait(REFRESH_LIFETIME));
    assert a.clock == start + REFRESH_LIFETIME && a.rows[SESSION].expiresAt == a.clock;
    var b := Next(a, Request(1, 1));
    var c := Next(b, Arrive(1));
    var d := Next(c, Match(1));
    assert d.refreshing[1].phase == Unmatched(a.clock);
    var e := Next(d, Look(1));
    assert e.refreshing[1] == Exchange(a.clock, 0, Replied(Unauthorized));
  }
}
