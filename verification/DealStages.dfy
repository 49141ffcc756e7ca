/**
 A deal and the log of its moves (backend/app/routers/deals.py, backend/app/models/deal.py): the
 row summarises the log, and every way of changing either goes through `apply_stage`.
 */
module DealStages {
  import opened Clock
  import opened Fields
  import opened Options

  datatype Stage = Draft | Lead | Qualified | Proposal | Negotiation | Won | Running | Completed | Lost

  datatype Side = WonSide | LostSide

  datatype StageEvent = StageEvent(from: Option<Stage>, to: Stage, at: Time, lostReason: Option<string>)

  datatype ValueType = Fixed | RateBased | Retainer

  datatype PriceUnit = Hour | Day | Week | Month

  /** Amounts in cents, volumes in hundredths. */
  datatype Pricing = Pricing(valueType: ValueType, fixedValue: Option<nat>, rate: Option<nat>, rateUnit: Option<PriceUnit>,
                             volume: Option<nat>, volumeUnit: Option<PriceUnit>)

  /** A row of `deals` with its rows of `deal_stage_events`; `content` stands for what no rule reads. */
  datatype Deal = Deal(content: string, pricing: Pricing, currency: string, stage: Option<Stage>, probability: Option<int>,
                       lostReason: Option<string>, closedAt: Option<Time>, stageChangedAt: Option<Time>, log: seq<StageEvent>)

  datatype Update = Update(version: Option<nat>, content: Field<string>, currency: Field<string>, stage: Field<Stage>,
                           probability: Field<int>, lostReason: Field<string>, valueType: Field<ValueType>,
                           fixedValue: Field<nat>, rate: Field<nat>, rateUnit: Field<PriceUnit>,
                           volume: Field<nat>, volumeUnit: Field<PriceUnit>)

  predicate IsWon(stage: Stage) { stage in {Won, Running, Completed} }

  predicate IsDecided(stage: Stage) { IsWon(stage) || stage == Lost }

  /** `_decided_side` */
  function DecidedSide(stage: Option<Stage>): Option<Side> {
    if stage.None? || !IsDecided(stage.value) then None
    else if stage.value == Lost then Some(LostSide) else Some(WonSide)
  }

  // ---- The price ----

  /** `_reject_contradictory_value` lets through what is priced in one way, with a unit beside every number. */
  predicate IsPricedOneWay(p: Pricing) {
    && (if p.valueType.Fixed? then p.rate.None? && p.rateUnit.None? && p.volume.None? && p.volumeUnit.None? else p.fixedValue.None?)
    && (p.rate.Some? ==> p.rateUnit.Some?)
    && (p.volume.Some? ==> p.volumeUnit.Some?)
  }

  /** `_merge_value_fields`: what a PATCH makes of the price; a switch drops the other shape's fields. */
  function Repriced(p: Pricing, u: Update): Pricing {
    var valueType := Kept(u.valueType, p.valueType);
    var toFixed := valueType != p.valueType && valueType.Fixed?;
    var fromFixed := valueType != p.valueType && !valueType.Fixed?;
    Pricing(valueType,
            Merged(u.fixedValue, if fromFixed then None else p.fixedValue),
            Merged(u.rate, if toFixed then None else p.rate),
            Merged(u.rateUnit, if toFixed then None else p.rateUnit),
            Merged(u.volume, if toFixed then None else p.volume),
            Merged(u.volumeUnit, if toFixed then None else p.volumeUnit))
  }

  /** The generated column `expected_value`, in cents, rounded half up. */
  function ExpectedValue(p: Pricing): Option<nat> {
    if p.valueType.Fixed? then p.fixedValue
    else if p.rate.Some? && p.volume.Some? && p.rateUnit.Some? && p.rateUnit == p.volumeUnit
    then Some((p.rate.value * p.volume.value + 50) / 100)
    else None
  }

  // ---- Moving ----

  /** `apply_stage` */
  function Moved(d: Deal, stage: Stage, lostReason: Option<string>, now: Time): Deal {
    var reason := if stage == Lost then lostReason else None;
    var closedAt :=
      if !IsDecided(stage) then None
      else if DecidedSide(d.stage) != DecidedSide(Some(stage)) || d.closedAt.None? then Some(now)
      else d.closedAt;
    var probability := if stage == Lost then Some(0) else if IsWon(stage) then Some(100) else d.probability;
    var settled := d.(stage := Some(stage), lostReason := reason, closedAt := closedAt, probability := probability);
    if d.stage == Some(stage) then settled
    else settled.(stageChangedAt := Some(now), log := d.log + [StageEvent(d.stage, stage, now, reason)])
  }

  /** What POST makes of a body, if it is accepted: a deal with no stage yet enters its first. */
  function Created(body: Deal, stage: Stage, lostReason: Option<string>, now: Time): Option<Deal> {
    if (lostReason.Some? && stage != Lost) || !IsPricedOneWay(body.pricing) then None
    else Some(Moved(body.(stage := None, lostReason := None, closedAt := None, stageChangedAt := None, log := []), stage, lostReason, now))
  }

  /** What PATCH makes of a deal, if it is accepted; the columns that may not be null refuse it. */
  function Patched(d: Deal, u: Update, now: Time): Option<Deal>
    requires d.stage.Some?
  {
    var pricing := Repriced(d.pricing, u);
    if u.content.Null? || u.currency.Null? || u.valueType.Null? || u.stage.Null? || !IsPricedOneWay(pricing) then None
    else
      var stage := Kept(u.stage, d.stage.value);
      if u.lostReason.Sent? && stage != Lost then None
      else
        var edited := d.(content := Kept(u.content, d.content), currency := Kept(u.currency, d.currency),
                         pricing := pricing, probability := Merged(u.probability, d.probability));
        Some(Moved(edited, stage, Merged(u.lostReason, d.lostReason), now))
  }

  /** What POST .../stage makes of a deal, if it is accepted. */
  function StageChanged(d: Deal, stage: Stage, lostReason: Option<string>, now: Time): Option<Deal> {
    if lostReason.Some? && stage != Lost then None else Some(Moved(d, stage, lostReason, now))
  }

  // ---- The row summarises the log ----

  /** From no stage, each move from where the last one led to somewhere else. */
  ghost predicate IsChain(log: seq<StageEvent>) {
    && log != [] && log[0].from == None
    && (forall i | 0 < i < |log| :: log[i].from == Some(log[i - 1].to))
    && (forall i | 0 <= i < |log| :: log[i].from != Some(log[i].to))
  }

  /** The move that led onto the other side, or out of the pipeline, or back into it. */
  predicate Crosses(e: StageEvent) { DecidedSide(e.from) != DecidedSide(Some(e.to)) }

  /** When the last such move was. */
  function LastCrossing(log: seq<StageEvent>): Option<Time> {
    if log == [] then None
    else if Crosses(log[|log| - 1]) then Some(log[|log| - 1].at)
    else LastCrossing(log[..|log| - 1])
  }

  ghost predicate Agrees(d: Deal) {
    && IsChain(d.log)
    && d.stage == Some(d.log[|d.log| - 1].to)
    && d.stageChangedAt == Some(d.log[|d.log| - 1].at)
    && d.closedAt == (if IsDecided(d.stage.value) then LastCrossing(d.log) else None)
    && (IsDecided(d.stage.value) ==> d.closedAt.Some?)
    && (IsWon(d.stage.value) ==> d.probability == Some(100))
    && (d.stage.value == Lost ==> d.probability == Some(0))
    && (d.lostReason.Some? ==> d.stage.value == Lost)
    && IsPricedOneWay(d.pricing)
  }

  lemma ChainGrows(log: seq<StageEvent>, e: StageEvent)
    requires IsChain(log) && e.from == Some(log[|log| - 1].to) && e.from != Some(e.to)
    ensures IsChain(log + [e])
    ensures LastCrossing(log + [e]) == if Crosses(e) then Some(e.at) else LastCrossing(log)
  {
    assert (log + [e])[..|log|] == log;
  }

  lemma MoveKeepsAgreement(d: Deal, stage: Stage, lostReason: Option<string>, now: Time)
    requires Agrees(d)
    ensures Agrees(Moved(d, stage, lostReason, now))
  {
    if d.stage != Some(stage) {
      ChainGrows(d.log, StageEvent(d.stage, stage, now, if stage == Lost then lostReason else None));
    }
  }

  lemma CreationAgrees(body: Deal, stage: Stage, lostReason: Option<string>, now: Time)
    ensures Created(body, stage, lostReason, now).Some? ==> Agrees(Created(body, stage, lostReason, now).value)
  {
    if Created(body, stage, lostReason, now).Some? {
      var log := Created(body, stage, lostReason, now).value.log;
      assert |log| == 1 && log[..0] == [];
    }
  }

  lemma PatchKeepsAgreement(d: Deal, u: Update, now: Time)
    requires Agrees(d)
    ensures Patched(d, u, now).Some? ==> Agrees(Patched(d, u, now).value)
  {
    if Patched(d, u, now).Some? {
      var pricing := Repriced(d.pricing, u);
      var stage := Kept(u.stage, d.stage.value);
      var edited := d.(content := Kept(u.content, d.content), currency := Kept(u.currency, d.currency),
                       pricing := pricing, probability := Merged(u.probability, d.probability));
      var reason := Merged(u.lostReason, d.lostReason);
      // `apply_stage` reads nothing that the edit touched, and settles the probability again.
      assert Moved(edited, stage, reason, now).log == Moved(d, stage, reason, now).log;
      MoveKeepsAgreement(d, stage, reason, now);
    }
  }

  /** The last crossing of a chain that ends decided led onto the side it ends on, and nothing crossed after it. */
  lemma {:induction false} CrossingOntoThisSide(log: seq<StageEvent>) returns (i: nat)
    requires IsChain(log) && IsDecided(log[|log| - 1].to)
    ensures i < |log| && Crosses(log[i]) && LastCrossing(log) == Some(log[i].at)
    ensures DecidedSide(Some(log[i].to)) == DecidedSide(Some(log[|log| - 1].to))
    ensures forall j | i < j < |log| :: !Crosses(log[j])
  {
    if Crosses(log[|log| - 1]) {
      i := |log| - 1;
    } else {
      i := CrossingOntoThisSide(log[..|log| - 1]);
    }
  }

  // ---- Requests that race for one deal ----

  datatype Stored = Missing | Present(deal: Deal, archived: bool, version: nat) | Erased

  datatype Request = Patch(update: Update) | ChangeStage(stage: Stage, lostReason: Option<string>) | SetArchived(archived: bool) | Erase

  /** What a request has read, what it will write, and the moves it will add to the log. */
  datatype Transaction = Transaction(copy: Stored, written: Stored, added: seq<StageEvent>)

  datatype State = State(stored: Stored, open: map<nat, Transaction>)

  datatype Event =
    | Create(body: Deal, first: Stage, reason: Option<string>, now: Time)
    | Load(x: nat, request: Request, now: Time)
    | Commit(x: nat)
    | Rollback(x: nat)

  /** What the request makes of the copy it loaded, if it is not refused. */
  function Answer(copy: Stored, request: Request, now: Time): Option<Stored>
    requires copy.Present? && copy.deal.stage.Some?
  {
    match request
    case Patch(u) =>
      if copy.archived || (u.version.Some? && u.version.value != copy.version) then None
      else
        (match Patched(copy.deal, u, now)
         case None => None
         case Some(d) => Some(copy.(deal := d)))
    case ChangeStage(stage, reason) =>
      if copy.archived then None
      else
        (match StageChanged(copy.deal, stage, reason, now)
         case None => None
         case Some(d) => Some(copy.(deal := d)))
    case SetArchived(archived) => Some(copy.(archived := archived))
    case Erase => if copy.archived then Some(Erased) else None
  }

  function Closed(s: State, x: nat): State { s.(open := s.open - {x}) }

  function AfterLoad(s: State, x: nat, request: Request, now: Time): State {
    if x in s.open || !s.stored.Present? || s.stored.deal.stage.None? then s
    else
      match Answer(s.stored, request, now)
      case None => s
      case Some(written) =>
        var added := if written.Present? && |written.deal.log| > |s.stored.deal.log| then written.deal.log[|s.stored.deal.log|..] else [];
        s.(open := s.open[x := Transaction(s.stored, written, added)])
  }

  /** One UPDATE or DELETE conditional on the version, and the new rows of the log with it, or nothing. */
  function AfterCommit(s: State, x: nat): State {
    if x !in s.open then s
    else
      var t := s.open[x];
      if t.written == t.copy || !(s.stored.Present? && t.copy.Present? && s.stored.version == t.copy.version) then Closed(s, x)
      else if t.written.Present? then
        Closed(s.(stored := Present(t.written.deal.(log := s.stored.deal.log + t.added), t.written.archived, t.copy.version + 1)), x)
      else Closed(s.(stored := Erased), x)
  }

  function After(s: State, e: Event): State {
    match e
    case Create(body, first, reason, now) =>
      (match Created(body, first, reason, now)
       case None => s
       case Some(d) => if s.stored.Missing? then s.(stored := Present(d, false, 1)) else s)
    case Load(x, request, now) => AfterLoad(s, x, request, now)
    case Commit(x) => AfterCommit(s, x)
    case Rollback(x) => Closed(s, x)
  }

  function Run(events: seq<Event>): State {
    if events == [] then State(Missing, map[]) else After(Run(events[..|events| - 1]), events[|events| - 1])
  }

  /** A transaction would write a deal that agrees, and read what is stored if the version still stands. */
  ghost predicate IsSound(s: State, t: Transaction) {
    && t.copy.Present? && Agrees(t.copy.deal) && !t.written.Missing?
    && (t.written.Present? ==> Agrees(t.written.deal) && t.written.deal.log == t.copy.deal.log + t.added)
    && !s.stored.Missing?
    && (s.stored.Present? ==> s.stored.version >= t.copy.version && (s.stored.version == t.copy.version ==> s.stored == t.copy))
  }

  ghost predicate Inv(s: State) {
    && (s.stored.Present? ==> Agrees(s.stored.deal))
    && (forall x | x in s.open :: IsSound(s, s.open[x]))
  }

  lemma AnswerAgrees(copy: Stored, request: Request, now: Time)
    requires copy.Present? && Agrees(copy.deal)
    ensures var answer := Answer(copy, request, now);
            answer.Some? ==>
              && !answer.value.Missing?
              && (answer.value.Present? ==> Agrees(answer.value.deal) && copy.deal.log <= answer.value.deal.log)
  {
    match request {
      case Patch(u) => PatchKeepsAgreement(copy.deal, u, now);
      case ChangeStage(stage, reason) => MoveKeepsAgreement(copy.deal, stage, reason, now);
      case _ =>
    }
  }

  lemma LoadKeepsInv(s: State, x: nat, request: Request, now: Time)
    requires Inv(s)
    ensures Inv(AfterLoad(s, x, request, now))
  {
    if s.stored.Present? {
      AnswerAgrees(s.stored, request, now);
      var next := AfterLoad(s, x, request, now);
      forall y | y in next.open ensures IsSound(next, next.open[y]) {
        assert y in s.open ==> IsSound(s, s.open[y]);
      }
    }
  }

  lemma CommitKeepsInv(s: State, x: nat)
    requires Inv(s)
    ensures Inv(AfterCommit(s, x))
  {
    if x in s.open {
      assert IsSound(s, s.open[x]);
      var next := AfterCommit(s, x);
      forall y | y in next.open ensures IsSound(next, next.open[y]) {
        assert IsSound(s, s.open[y]);
      }
    }
  }

  lemma {:induction false} RunKeepsInv(events: seq<Event>)
    ensures Inv(Run(events))
  {
    if events != [] {
      var s := Run(events[..|events| - 1]);
      RunKeepsInv(events[..|events| - 1]);
      match events[|events| - 1] {
        case Create(body, first, reason, now) => CreationAgrees(body, first, reason, now);
        case Load(x, request, now) => LoadKeepsInv(s, x, request, now);
        case Commit(x) => CommitKeepsInv(s, x);
        case Rollback(_) =>
      }
    }
  }

  /**
   In every run, whichever requests race: the log is a chain of real moves from no stage to the
   row's; the stage clock is the last move's; the deal is closed exactly if it is decided, at the
   last move that crossed onto the side it is on; the probability is settled; and only a lost deal
   has a reason.
   */
  lemma RowAgreesWithLog(events: seq<Event>)
    requires Run(events).stored.Present?
    ensures var d := Run(events).stored.deal;
            && IsChain(d.log) && d.stage == Some(d.log[|d.log| - 1].to) && d.stageChangedAt == Some(d.log[|d.log| - 1].at)
            && (d.closedAt.Some? <==> IsDecided(d.stage.value))
            && (d.closedAt.Some? ==> exists i | 0 <= i < |d.log| ::
                  && Crosses(d.log[i]) && d.closedAt == Some(d.log[i].at)
                  && DecidedSide(Some(d.log[i].to)) == DecidedSide(d.stage)
                  && forall j | i < j < |d.log| :: !Crosses(d.log[j]))
            && (IsWon(d.stage.value) ==> d.probability == Some(100))
            && (d.stage.value == Lost ==> d.probability == Some(0))
            && (d.lostReason.Some? ==> d.stage.value == Lost)
            && IsPricedOneWay(d.pricing)
  {
    RunKeepsInv(events);
    var d := Run(events).stored.deal;
    if IsDecided(d.stage.value) {
      var i := CrossingOntoThisSide(d.log);
    }
  }

  // ---- The object the router works on ----

  class DealRecord {
    var content: string
    var pricing: Pricing
    var currency: string
    var stage: Option<Stage>
    var probability: Option<int>
    var lostReason: Option<string>
    var closedAt: Option<Time>
    var stageChangedAt: Option<Time>
    var stageEvents: seq<StageEvent>

    ghost function Value(): Deal
      reads this
    {
      Deal(content, pricing, currency, stage, probability, lostReason, closedAt, stageChangedAt, stageEvents)
    }

    constructor (body: Deal, first: Stage, reason: Option<string>, now: Time)
      requires Created(body, first, reason, now).Some?
      ensures Value() == Created(body, first, reason, now).value
    {
      content, pricing, currency, probability := body.content, body.pricing, body.currency, body.probability;
      stage, lostReason, closedAt, stageChangedAt, stageEvents := None, None, None, None, [];
      new;
      ApplyStage(first, reason, now);
    }

    method ApplyStage(to: Stage, reason: Option<string>, now: Time)
      modifies this
      ensures Value() == Moved(old(Value()), to, reason, now)
    {
      var previous := stage;
      stage := Some(to);
      if IsDecided(to) {
        if DecidedSide(previous) != DecidedSide(Some(to)) || closedAt.None? {
          closedAt := Some(now);
        }
        probability := Some(if to == Lost then 0 else 100);
        lostReason := if to == Lost then reason else None;
      } else {
        closedAt := None;
        lostReason := None;
      }
      if Some(to) != previous {
        stageChangedAt := Some(now);
        stageEvents := stageEvents + [StageEvent(previous, to, now, lostReason)];
      }
    }

    /** `_merge_value_fields`: the price fields of the PATCH, with those that a switch of type drops set to null. */
    method MergeValueFields(u: Update) returns (updates: Update, ok: bool)
      ensures ok <==> IsPricedOneWay(Repriced(pricing, u))
      ensures Repriced(pricing, updates) == Repriced(pricing, u)
      ensures updates == u.(fixedValue := updates.fixedValue, rate := updates.rate, rateUnit := updates.rateUnit,
                            volume := updates.volume, volumeUnit := updates.volumeUnit)
    {
      updates := u;
      if u.valueType.Sent? && u.valueType.value != pricing.valueType {
        if u.valueType.value.Fixed? {
          if u.rate.Unset? { updates := updates.(rate := Null); }
          if u.rateUnit.Unset? { updates := updates.(rateUnit := Null); }
          if u.volume.Unset? { updates := updates.(volume := Null); }
          if u.volumeUnit.Unset? { updates := updates.(volumeUnit := Null); }
        } else if u.fixedValue.Unset? {
          updates := updates.(fixedValue := Null);
        }
      }
      ok := IsPricedOneWay(Repriced(pricing, updates));
    }

    method UpdateDeal(u: Update, now: Time) returns (ok: bool)
      requires stage.Some?
      modifies this
      ensures ok == Patched(old(Value()), u, now).Some?
      ensures Value() == if ok then Patched(old(Value()), u, now).value else old(Value())
    {
      var updates, usable := MergeValueFields(u);
      if !usable || u.content.Null? || u.currency.Null? || u.valueType.Null? || u.stage.Null? {
        return false;
      }
      var to := Kept(updates.stage, stage.value);
      var reason := Merged(updates.lostReason, lostReason);
      if updates.lostReason.Sent? && to != Lost {
        return false;
      }
      content, currency := Kept(updates.content, content), Kept(updates.currency, currency);
      probability := Merged(updates.probability, probability);
      pricing := Repriced(pricing, updates);
      ApplyStage(to, reason, now);
      ok := true;
    }

    method ChangeDealStage(to: Stage, reason: Option<string>, now: Time) returns (ok: bool)
      modifies this
      ensures ok == StageChanged(old(Value()), to, reason, now).Some?
      ensures Value() == if ok then StageChanged(old(Value()), to, reason, now).value else old(Value())
    {
      if reason.Some? && to != Lost {
        return false;
      }
      ApplyStage(to, reason, now);
      ok := true;
    }
  }
}
