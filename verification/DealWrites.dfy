/**
 What a request does to its deal (backend/app/routers/deals.py), said of the row and its log
 alone, and of the committed row in any run of requests that race for it.
 */
module DealWrites {
  import opened Clock
  import opened Fields
  import opened Options
  import opened DealStages

  // ---- A move ----

  /** Won and lost are two sides, and what is not decided is on neither. */
  predicate AreOneSide(a: Stage, b: Stage) {
    (a == Lost && b == Lost) || (a in {Won, Running, Completed} && b in {Won, Running, Completed})
  }

  /** Closed when it was decided, and not at all while it is still open. */
  ghost predicate IsClosed(before: Deal, after: Deal, stage: Stage, now: Time) {
    match stage
    case Draft | Lead | Qualified | Proposal | Negotiation => after.closedAt == None
    case Won | Running | Completed | Lost =>
      if before.closedAt.Some? && before.stage.Some? && AreOneSide(before.stage.value, stage)
      then after.closedAt == before.closedAt else after.closedAt == Some(now)
  }

  /** A decided deal is certain one way or the other, and an open one as likely as was said. */
  ghost predicate IsLikely(after: Deal, stage: Stage, said: Option<int>) {
    match stage
    case Lost => after.probability == Some(0)
    case Won | Running | Completed => after.probability == Some(100)
    case Draft | Lead | Qualified | Proposal | Negotiation => after.probability == said
  }

  /** A move is dated and logged with its reason; where the deal stays, the log and the clock stay. */
  ghost predicate IsLogged(before: Deal, after: Deal, stage: Stage, now: Time) {
    if before.stage == Some(stage) then after.log == before.log && after.stageChangedAt == before.stageChangedAt
    else after.log == before.log + [StageEvent(before.stage, stage, now, after.lostReason)] && after.stageChangedAt == Some(now)
  }

  /** Into a stage, for a reason if that is how the deal was lost. */
  ghost predicate IsMove(before: Deal, after: Deal, stage: Stage, reason: Option<string>, said: Option<int>, now: Time) {
    && after.stage == Some(stage)
    && after.lostReason == (if stage == Lost then reason else None)
    && IsClosed(before, after, stage, now) && IsLikely(after, stage, said) && IsLogged(before, after, stage, now)
  }

  /** `apply_stage` makes of a deal what a move makes of it, and leaves the rest alone. */
  lemma MovedExactly(d: Deal, stage: Stage, reason: Option<string>, now: Time, e: Deal)
    ensures Moved(d, stage, reason, now) == e <==>
            IsMove(d, e, stage, reason, d.probability, now)
            && e.content == d.content && e.pricing == d.pricing && e.currency == d.currency
  {
  }

  // ---- The price ----

  /** A field of the other shape goes with a switch of type unless it was sent; others are as sent or as they were. */
  ghost predicate IsPricePut<T>(field: Field<T>, before: Option<T>, after: Option<T>, isDropped: bool) {
    IsPut(field, if isDropped then None else before, after)
  }

  ghost predicate IsRepriced(before: Pricing, after: Pricing, u: Update) {
    var isSwitch := after.valueType != before.valueType;
    var toFixed, fromFixed := isSwitch && after.valueType == Fixed, isSwitch && after.valueType != Fixed;
    && IsSet(u.valueType, before.valueType, after.valueType)
    && IsPricePut(u.fixedValue, before.fixedValue, after.fixedValue, fromFixed)
    && IsPricePut(u.rate, before.rate, after.rate, toFixed) && IsPricePut(u.rateUnit, before.rateUnit, after.rateUnit, toFixed)
    && IsPricePut(u.volume, before.volume, after.volume, toFixed)
    && IsPricePut(u.volumeUnit, before.volumeUnit, after.volumeUnit, toFixed)
  }

  /** A contract sum alone, or no contract sum, and no number without its unit. */
  ghost predicate MakesSense(p: Pricing) {
    match p
    case Pricing(Fixed, _, rate, rateUnit, volume, volumeUnit) => rate == None && rateUnit == None && volume == None && volumeUnit == None
    case Pricing(_, fixedValue, rate, rateUnit, volume, volumeUnit) =>
      fixedValue == None && !(rate.Some? && rateUnit.None?) && !(volume.Some? && volumeUnit.None?)
  }

  /** The expected value is the nearest cent, the higher one of two. */
  lemma ExpectedExactly(p: Pricing, cents: nat)
    requires MakesSense(p)
    ensures ExpectedValue(p) == Some(cents) <==>
            if p.valueType == Fixed then p.fixedValue == Some(cents)
            else p.rate.Some? && p.volume.Some? && p.rateUnit == p.volumeUnit
                 && 100 * cents - 50 <= p.rate.value * p.volume.value < 100 * cents + 50
  {
  }

  // ---- The requests ----

  /** POST: a deal of no stage yet enters its first. */
  ghost predicate IsCreation(body: Deal, after: Deal, stage: Stage, reason: Option<string>, now: Time) {
    && MakesSense(body.pricing) && (reason.Some? ==> stage == Lost)
    && after.content == body.content && after.pricing == body.pricing && after.currency == body.currency
    && after.stage == Some(stage) && after.lostReason == reason
    && after.closedAt == (if stage in {Won, Running, Completed, Lost} then Some(now) else None)
    && IsLikely(after, stage, body.probability)
    && after.stageChangedAt == Some(now) && after.log == [StageEvent(None, stage, now, reason)]
  }

  lemma CreatedExactly(body: Deal, stage: Stage, reason: Option<string>, now: Time, e: Deal)
    ensures Created(body, stage, reason, now) == Some(e) <==> IsCreation(body, e, stage, reason, now)
  {
    var none: seq<StageEvent> := [];
    assert none + [StageEvent(None, stage, now, reason)] == [StageEvent(None, stage, now, reason)];
  }

  /** PATCH: every column as sent or as it was, and then the move, which has the last word on the probability. */
  ghost predicate IsPatch(before: Deal, after: Deal, u: Update, now: Time) {
    && IsSet(u.content, before.content, after.content) && IsSet(u.currency, before.currency, after.currency)
    && IsRepriced(before.pricing, after.pricing, u) && MakesSense(after.pricing)
    && before.stage.Some? && after.stage.Some? && IsSet(u.stage, before.stage.value, after.stage.value)
    && (u.lostReason.Sent? ==> after.stage == Some(Lost))
    && exists reason, said ::
         && IsPut(u.lostReason, before.lostReason, reason) && IsPut(u.probability, before.probability, said)
         && IsMove(before, after, after.stage.value, reason, said, now)
  }

  lemma RepricedExactly(p: Pricing, u: Update, q: Pricing)
    requires !u.valueType.Null?
    ensures Repriced(p, u) == q <==> IsRepriced(p, q, u)
  {
  }

  lemma PatchIsRight(d: Deal, u: Update, now: Time)
    requires d.stage.Some? && Patched(d, u, now).Some?
    ensures IsPatch(d, Patched(d, u, now).value, u, now)
  {
    var e := Patched(d, u, now).value;
    RepricedExactly(d.pricing, u, e.pricing);
    var reason, said := Merged(u.lostReason, d.lostReason), Merged(u.probability, d.probability);
    assert IsPut(u.lostReason, d.lostReason, reason) && IsPut(u.probability, d.probability, said);
    assert IsMove(d, e, e.stage.value, reason, said, now);
  }

  lemma PatchIsUnique(d: Deal, u: Update, now: Time, e: Deal)
    requires IsPatch(d, e, u, now)
    ensures Patched(d, u, now) == Some(e)
  {
    RepricedExactly(d.pricing, u, e.pricing);
  }

  /** A patch is let through exactly if there is a deal that it makes, and that is the one. */
  lemma PatchedExactly(d: Deal, u: Update, now: Time, e: Deal)
    requires d.stage.Some?
    ensures Patched(d, u, now) == Some(e) <==> IsPatch(d, e, u, now)
  {
    if Patched(d, u, now) == Some(e) {
      PatchIsRight(d, u, now);
    } else if IsPatch(d, e, u, now) {
      PatchIsUnique(d, u, now, e);
    }
  }

  /** POST .../stage: the move and nothing else. */
  ghost predicate IsStageChange(before: Deal, after: Deal, stage: Stage, reason: Option<string>, now: Time) {
    && (reason.Some? ==> stage == Lost)
    && IsMove(before, after, stage, reason, before.probability, now)
    && after.content == before.content && after.pricing == before.pricing && after.currency == before.currency
  }

  lemma StageChangedExactly(d: Deal, stage: Stage, reason: Option<string>, now: Time, e: Deal)
    ensures StageChanged(d, stage, reason, now) == Some(e) <==> IsStageChange(d, e, stage, reason, now)
  {
    MovedExactly(d, stage, reason, now, e);
  }

  // ---- What a commit writes ----

  /** What a request makes of the stored deal; the version goes up by one. */
  ghost predicate IsWritten(before: Stored, after: Stored, request: Request, now: Time) {
    && before.Present?
    && match request
       case Patch(u) =>
         && !before.archived && (u.version.Some? ==> u.version.value == before.version)
         && after.Present? && IsPatch(before.deal, after.deal, u, now) && !after.archived && after.version == before.version + 1
       case ChangeStage(stage, reason) =>
         && !before.archived
         && after.Present? && IsStageChange(before.deal, after.deal, stage, reason, now) && !after.archived
         && after.version == before.version + 1
       case SetArchived(archived) => before.archived != archived && after == before.(archived := archived, version := before.version + 1)
       case Erase => before.archived && after == Erased
  }

  /** The request that a transaction is for. */
  ghost function Opening(events: seq<Event>, x: nat): Option<Event> {
    if events == [] || x !in Run(events).open then None
    else
      var init, last := events[..|events| - 1], events[|events| - 1];
      if x in Run(init).open then Opening(init, x) else Some(last)
  }

  ghost predicate IsOpening(e: Event, x: nat, t: Transaction) {
    && e.Load? && e.x == x && t.copy.Present? && t.copy.deal.stage.Some?
    && Answer(t.copy, e.request, e.now) == Some(t.written)
  }

  lemma {:induction false} OpenedByLoad(events: seq<Event>, x: nat)
    requires x in Run(events).open
    ensures Opening(events, x).Some? && IsOpening(Opening(events, x).value, x, Run(events).open[x])
  {
    if events != [] && x in Run(events[..|events| - 1]).open {
      OpenedByLoad(events[..|events| - 1], x);
    }
  }

  lemma AnswerIsWritten(copy: Stored, request: Request, now: Time, written: Stored)
    requires copy.Present? && copy.deal.stage.Some? && Answer(copy, request, now) == Some(written) && written != copy
    ensures IsWritten(copy, if written.Present? then written.(version := copy.version + 1) else written, request, now)
  {
    match request
    case Patch(u) => PatchedExactly(copy.deal, u, now, written.deal);
    case ChangeStage(stage, reason) => StageChangedExactly(copy.deal, stage, reason, now, written.deal);
    case _ =>
  }

  /**
   In every run, whichever requests race: a commit that changes the deal makes of the row as it is
   by then exactly what its request is for, as of the time it was read.
   */
  lemma CommitWrites(events: seq<Event>, x: nat)
    requires Run(events + [Commit(x)]).stored != Run(events).stored
    ensures var e := Opening(events, x);
            && e.Some? && e.value.Load? && e.value.x == x
            && IsWritten(Run(events).stored, Run(events + [Commit(x)]).stored, e.value.request, e.value.now)
  {
    var s := Run(events);
    assert (events + [Commit(x)])[..|events|] == events;
    RunKeepsInv(events);
    OpenedByLoad(events, x);
    var t, e := s.open[x], Opening(events, x).value;
    assert IsSound(s, t) && s.stored == t.copy;
    AnswerIsWritten(t.copy, e.request, e.now, t.written);
  }

  /** The row as the request would leave it, but for the version. */
  function Versioned(after: Stored, version: nat): Stored { if after.Present? then after.(version := version) else after }

  lemma WrittenIsAnswer(copy: Stored, request: Request, now: Time, after: Stored)
    requires copy.Present? && copy.deal.stage.Some? && IsWritten(copy, after, request, now)
    ensures Answer(copy, request, now) == Some(Versioned(after, copy.version))
  {
    match request
    case Patch(u) => PatchedExactly(copy.deal, u, now, after.deal);
    case ChangeStage(stage, reason) => StageChangedExactly(copy.deal, stage, reason, now, after.deal);
    case _ =>
  }

  lemma WrittenHasItsVersion(copy: Stored, request: Request, now: Time, after: Stored)
    requires copy.Present? && copy.deal.stage.Some? && IsWritten(copy, after, request, now)
    ensures after.Present? ==> after.version == copy.version + 1
    ensures after.Present? || after == Erased
  {
  }

  lemma LoadAndCommit(s: State, x: nat, request: Request, now: Time, written: Stored)
    requires s.stored.Present? && s.stored.deal.stage.Some? && x !in s.open && Answer(s.stored, request, now) == Some(written)
    requires written.Present? ==> s.stored.deal.log <= written.deal.log
    ensures var next := AfterCommit(AfterLoad(s, x, request, now), x);
            next.stored == if written == s.stored then s.stored
                           else if written.Present? then written.(version := s.stored.version + 1) else Erased
  {
    if written.Present? {
      assert s.stored.deal.log + written.deal.log[|s.stored.deal.log|..] == written.deal.log;
      if |written.deal.log| == |s.stored.deal.log| {
        assert written.deal.log == s.stored.deal.log == s.stored.deal.log + [];
      }
    }
  }

  /** A request that nothing disturbs is written, if there is anything to write. */
  lemma FreeRequestIsWritten(s: State, x: nat, request: Request, now: Time, after: Stored)
    requires Inv(s) && s.stored.Present? && x !in s.open && IsWritten(s.stored, after, request, now)
    ensures var next := DealStages.After(DealStages.After(s, Load(x, request, now)), Commit(x));
            next.stored == if after.Present? && after == s.stored.(version := after.version) then s.stored else after
  {
    WrittenIsAnswer(s.stored, request, now, after);
    WrittenHasItsVersion(s.stored, request, now, after);
    AnswerAgrees(s.stored, request, now);
    LoadAndCommit(s, x, request, now, Versioned(after, s.stored.version));
  }
}
