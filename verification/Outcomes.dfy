/**
 "Did it come off" on the dashboard (backend/app/metrics.py): the deals decided in a period, read
 from the stage log and counted per side and currency, against the rows that summarise that log.
 */
module Outcomes {
  import opened Clock
  import opened Options
  import opened DealStages

  /** Half-open. */
  datatype Period = Period(start: Time, end: Time)

  /** A group of the query; `value` is null if no deal of it has a derivable amount. */
  datatype OutcomeRow = OutcomeRow(isWon: bool, currency: string, count: nat, value: Option<nat>, openEnded: nat)

  predicate Contains(p: Period, t: Time) { p.start <= t < p.end }

  /** Into the won stages from outside them, or to lost from anywhere but a draft. */
  predicate IsDecision(e: StageEvent) {
    || (IsWon(e.to) && (e.from.None? || !IsWon(e.from.value)))
    || (e.to == Lost && e.from != Some(Draft))
  }

  predicate IsDecidedIn(log: seq<StageEvent>, p: Period) {
    exists i | 0 <= i < |log| :: IsDecision(log[i]) && Contains(p, log[i].at)
  }

  /** The WHERE clause of the query. */
  predicate Qualifies(r: Stored, p: Period) {
    r.Present? && !r.archived && r.deal.stage.Some? && IsDecided(r.deal.stage.value) && IsDecidedIn(r.deal.log, p)
  }

  predicate IsInGroup(r: Stored, isWon: bool, currency: string)
    requires r.Present? && r.deal.stage.Some?
  {
    IsWon(r.deal.stage.value) == isWon && r.deal.currency == currency
  }

  /** SUM skips nulls. */
  function Plus(sum: Option<nat>, value: Option<nat>): Option<nat> {
    if value.None? then sum else Some(value.value + sum.GetOr(0))
  }

  /** A row with one more deal in it, new if that is the first. */
  function Joined(row: Option<OutcomeRow>, isWon: bool, currency: string, value: Option<nat>): OutcomeRow {
    var unknown := if value.None? then 1 else 0;
    match row
    case None => OutcomeRow(isWon, currency, 1, Plus(None, value), unknown)
    case Some(r) => OutcomeRow(isWon, currency, r.count + 1, Plus(r.value, value), r.openEnded + unknown)
  }

  /** One more deal in its group. */
  function AddTo(rows: seq<OutcomeRow>, isWon: bool, currency: string, value: Option<nat>): seq<OutcomeRow> {
    if rows == [] then [Joined(None, isWon, currency, value)]
    else if rows[0].isWon == isWon && rows[0].currency == currency then [Joined(Some(rows[0]), isWon, currency, value)] + rows[1..]
    else [rows[0]] + AddTo(rows[1..], isWon, currency, value)
  }

  /** The grouped query. */
  function Grouped(records: seq<Stored>, p: Period): seq<OutcomeRow> {
    if records == [] then []
    else
      var rows := Grouped(records[..|records| - 1], p);
      var r := records[|records| - 1];
      if Qualifies(r, p) then AddTo(rows, IsWon(r.deal.stage.value), r.deal.currency, ExpectedValue(r.deal.pricing)) else rows
  }

  // ---- What a row should say, one group at a time ----

  function Members(records: seq<Stored>, p: Period, isWon: bool, currency: string): seq<Deal> {
    if records == [] then []
    else
      var r := records[|records| - 1];
      Members(records[..|records| - 1], p, isWon, currency)
      + if Qualifies(r, p) && IsInGroup(r, isWon, currency) then [r.deal] else []
  }

  function Total(deals: seq<Deal>): Option<nat> {
    if deals == [] then None else Plus(Total(deals[..|deals| - 1]), ExpectedValue(deals[|deals| - 1].pricing))
  }

  function OpenEnded(deals: seq<Deal>): nat {
    if deals == [] then 0
    else OpenEnded(deals[..|deals| - 1]) + if ExpectedValue(deals[|deals| - 1].pricing).None? then 1 else 0
  }

  function Qualifying(records: seq<Stored>, p: Period): nat {
    if records == [] then 0 else Qualifying(records[..|records| - 1], p) + if Qualifies(records[|records| - 1], p) then 1 else 0
  }

  function Counts(rows: seq<OutcomeRow>, isWon: bool): nat {
    if rows == [] then 0 else (if rows[0].isWon == isWon then rows[0].count else 0) + Counts(rows[1..], isWon)
  }

  /** The row of a group, if it has one. */
  function RowOf(rows: seq<OutcomeRow>, isWon: bool, currency: string): Option<OutcomeRow> {
    if rows == [] then None
    else if rows[0].isWon == isWon && rows[0].currency == currency then Some(rows[0])
    else RowOf(rows[1..], isWon, currency)
  }

  ghost predicate HasOneRowEach(rows: seq<OutcomeRow>) {
    forall i, j | 0 <= i < j < |rows| :: rows[i].isWon != rows[j].isWon || rows[i].currency != rows[j].currency
  }

  lemma {:induction false} AddToGroup(rows: seq<OutcomeRow>, isWon: bool, currency: string, value: Option<nat>, side: bool, other: string)
    ensures var next := RowOf(AddTo(rows, isWon, currency, value), side, other);
            if side == isWon && other == currency then next == Some(Joined(RowOf(rows, isWon, currency), isWon, currency, value))
            else next == RowOf(rows, side, other)
  {
    if rows != [] && !(rows[0].isWon == isWon && rows[0].currency == currency) {
      AddToGroup(rows[1..], isWon, currency, value, side, other);
    }
  }

  lemma {:induction false} AddToKeepsKeys(rows: seq<OutcomeRow>, isWon: bool, currency: string, value: Option<nat>)
    requires HasOneRowEach(rows)
    ensures HasOneRowEach(AddTo(rows, isWon, currency, value))
    ensures forall r | r in AddTo(rows, isWon, currency, value) ::
              (r.isWon == isWon && r.currency == currency) || exists k | k in rows :: k.isWon == r.isWon && k.currency == r.currency
  {
    if rows != [] && !(rows[0].isWon == isWon && rows[0].currency == currency) {
      AddToKeepsKeys(rows[1..], isWon, currency, value);
      var rest := AddTo(rows[1..], isWon, currency, value);
      forall j | 0 <= j < |rest| ensures rest[j].isWon != rows[0].isWon || rest[j].currency != rows[0].currency {
        assert rest[j] in rest;
      }
    }
  }

  lemma {:induction false} AddToCounts(rows: seq<OutcomeRow>, isWon: bool, currency: string, value: Option<nat>, side: bool)
    ensures Counts(AddTo(rows, isWon, currency, value), side) == Counts(rows, side) + if side == isWon then 1 else 0
  {
    if rows != [] && !(rows[0].isWon == isWon && rows[0].currency == currency) {
      AddToCounts(rows[1..], isWon, currency, value, side);
    }
  }

  /** What the row of a group says about the deals in it. */
  function Summary(isWon: bool, currency: string, deals: seq<Deal>): Option<OutcomeRow> {
    if deals == [] then None else Some(OutcomeRow(isWon, currency, |deals|, Total(deals), OpenEnded(deals)))
  }

  lemma SummaryGrows(isWon: bool, currency: string, deals: seq<Deal>, d: Deal)
    ensures Summary(isWon, currency, deals + [d])
            == Some(Joined(Summary(isWon, currency, deals), isWon, currency, ExpectedValue(d.pricing)))
  {
    assert (deals + [d])[..|deals|] == deals && (deals + [d])[|deals|] == d;
    assert Total(deals + [d]) == Plus(Total(deals), ExpectedValue(d.pricing));
  }

  lemma {:induction false} EveryGroupHasOneRow(records: seq<Stored>, p: Period)
    ensures HasOneRowEach(Grouped(records, p))
  {
    if records != [] {
      EveryGroupHasOneRow(records[..|records| - 1], p);
      var r := records[|records| - 1];
      if Qualifies(r, p) {
        AddToKeepsKeys(Grouped(records[..|records| - 1], p), IsWon(r.deal.stage.value), r.deal.currency, ExpectedValue(r.deal.pricing));
      }
    }
  }

  lemma MembersGrow(records: seq<Stored>, r: Stored, p: Period, isWon: bool, currency: string)
    ensures Members(records + [r], p, isWon, currency)
            == if Qualifies(r, p) && IsInGroup(r, isWon, currency) then Members(records, p, isWon, currency) + [r.deal]
               else Members(records, p, isWon, currency)
  {
    assert (records + [r])[..|records|] == records;
  }

  lemma GroupedGrows(records: seq<Stored>, r: Stored, p: Period, isWon: bool, currency: string)
    ensures RowOf(Grouped(records + [r], p), isWon, currency)
            == if Qualifies(r, p) && IsInGroup(r, isWon, currency)
               then Some(Joined(RowOf(Grouped(records, p), isWon, currency), isWon, currency, ExpectedValue(r.deal.pricing)))
               else RowOf(Grouped(records, p), isWon, currency)
  {
    assert (records + [r])[..|records|] == records;
    if Qualifies(r, p) {
      AddToGroup(Grouped(records, p), IsWon(r.deal.stage.value), r.deal.currency, ExpectedValue(r.deal.pricing), isWon, currency);
    }
  }

  /**
   The row of a group says how many qualifying deals are in it, what those with a derivable amount
   add up to in their one currency, and how many have none; a group without deals has no row.
   */
  lemma {:induction false} RowsAreExact(records: seq<Stored>, p: Period, isWon: bool, currency: string)
    ensures RowOf(Grouped(records, p), isWon, currency) == Summary(isWon, currency, Members(records, p, isWon, currency))
  {
    if records != [] {
      var before, r := records[..|records| - 1], records[|records| - 1];
      assert records == before + [r];
      RowsAreExact(before, p, isWon, currency);
      GroupedGrows(before, r, p, isWon, currency);
      MembersGrow(before, r, p, isWon, currency);
      if Qualifies(r, p) && IsInGroup(r, isWon, currency) {
        SummaryGrows(isWon, currency, Members(before, p, isWon, currency), r.deal);
      }
    }
  }

  /** Won and lost together count every qualifying deal once, whatever detours its log holds. */
  lemma {:induction false} WonAndLostAddUp(records: seq<Stored>, p: Period)
    ensures Counts(Grouped(records, p), true) + Counts(Grouped(records, p), false) == Qualifying(records, p)
  {
    if records != [] {
      WonAndLostAddUp(records[..|records| - 1], p);
      var r := records[|records| - 1];
      if Qualifies(r, p) {
        var rows := Grouped(records[..|records| - 1], p);
        AddToCounts(rows, IsWon(r.deal.stage.value), r.deal.currency, ExpectedValue(r.deal.pricing), true);
        AddToCounts(rows, IsWon(r.deal.stage.value), r.deal.currency, ExpectedValue(r.deal.pricing), false);
      }
    }
  }

  // ---- Lists and periods put together ----

  /** One group over two lists: the numbers add up, and an amount that is missing counts for nothing. */
  function Combined(a: Option<OutcomeRow>, b: Option<OutcomeRow>): Option<OutcomeRow> {
    if a.None? then b
    else if b.None? then a
    else
      var r, s := a.value, b.value;
      Some(r.(count := r.count + s.count, openEnded := r.openEnded + s.openEnded,
              value := if r.value.None? && s.value.None? then None else Some(r.value.GetOr(0) + s.value.GetOr(0))))
  }

  lemma JoinedIsCombined(row: Option<OutcomeRow>, isWon: bool, currency: string, value: Option<nat>)
    requires row.Some? ==> row.value.isWon == isWon && row.value.currency == currency
    ensures Some(Joined(row, isWon, currency, value))
         == Combined(row, Some(OutcomeRow(isWon, currency, 1, value, if value.None? then 1 else 0)))
  {
  }

  lemma CombinedIsAssociative(a: Option<OutcomeRow>, b: Option<OutcomeRow>, c: Option<OutcomeRow>)
    ensures Combined(Combined(a, b), c) == Combined(a, Combined(b, c))
  {
  }

  /** One record alone: it is a row if it is live, decided and was decided in the period. */
  function Alone(r: Stored, p: Period, isWon: bool, currency: string): Option<OutcomeRow> {
    if r.Present? && !r.archived && r.deal.stage.Some? && IsDecidedIn(r.deal.log, p) && r.deal.currency == currency
       && r.deal.stage.value in (if isWon then {Won, Running, Completed} else {Lost})
    then
      var value := ExpectedValue(r.deal.pricing);
      Some(OutcomeRow(isWon, currency, 1, value, if value.None? then 1 else 0))
    else None
  }

  lemma {:induction false} RowIsOfItsGroup(rows: seq<OutcomeRow>, isWon: bool, currency: string)
    ensures RowOf(rows, isWon, currency).Some? ==>
              RowOf(rows, isWon, currency).value.isWon == isWon && RowOf(rows, isWon, currency).value.currency == currency
  {
    if rows != [] {
      RowIsOfItsGroup(rows[1..], isWon, currency);
    }
  }

  lemma OneMoreRecord(records: seq<Stored>, r: Stored, p: Period, isWon: bool, currency: string)
    ensures RowOf(Grouped(records + [r], p), isWon, currency)
         == Combined(RowOf(Grouped(records, p), isWon, currency), Alone(r, p, isWon, currency))
  {
    GroupedGrows(records, r, p, isWon, currency);
    RowIsOfItsGroup(Grouped(records, p), isWon, currency);
    if Qualifies(r, p) && IsInGroup(r, isWon, currency) {
      JoinedIsCombined(RowOf(Grouped(records, p), isWon, currency), isWon, currency, ExpectedValue(r.deal.pricing));
    }
  }

  /** The row of a group over two lists is put together from its rows over each. */
  lemma {:induction false} RowsCombine(a: seq<Stored>, b: seq<Stored>, p: Period, isWon: bool, currency: string)
    ensures RowOf(Grouped(a + b, p), isWon, currency)
         == Combined(RowOf(Grouped(a, p), isWon, currency), RowOf(Grouped(b, p), isWon, currency))
    decreases |b|
  {
    if b == [] {
      assert a + b == a;
    } else {
      var init, r := b[..|b| - 1], b[|b| - 1];
      assert a + b == (a + init) + [r] && b == init + [r];
      RowsCombine(a, init, p, isWon, currency);
      OneMoreRecord(a + init, r, p, isWon, currency);
      OneMoreRecord(init, r, p, isWon, currency);
      CombinedIsAssociative(RowOf(Grouped(a, p), isWon, currency), RowOf(Grouped(init, p), isWon, currency), Alone(r, p, isWon, currency));
    }
  }

  lemma RowOfOne(r: Stored, p: Period, isWon: bool, currency: string)
    ensures RowOf(Grouped([r], p), isWon, currency) == Alone(r, p, isWon, currency)
  {
    OneMoreRecord([], r, p, isWon, currency);
    assert [] + [r] == [r];
  }

  /** A period is as good as two that meet in it: a deal counts in it exactly if it counts in one of them. */
  lemma PeriodsMeet(r: Stored, start: Time, middle: Time, end: Time)
    requires start <= middle <= end
    ensures Qualifies(r, Period(start, end)) <==> Qualifies(r, Period(start, middle)) || Qualifies(r, Period(middle, end))
    ensures forall t :: !(Contains(Period(start, middle), t) && Contains(Period(middle, end), t))
    ensures start < end ==> Contains(Period(start, end), start)
  {
    if r.Present? && IsDecidedIn(r.deal.log, Period(start, end)) {
      var i :| 0 <= i < |r.deal.log| && IsDecision(r.deal.log[i]) && Contains(Period(start, end), r.deal.log[i].at);
      assert Contains(Period(start, middle), r.deal.log[i].at) || Contains(Period(middle, end), r.deal.log[i].at);
    }
  }

  // ---- The log and the row ----

  /**
   A deal whose row and log agree is counted exactly if it is live, is decided now, and crossed
   onto a side in the period, other than by dropping a draft.
   */
  lemma QualifiesExactly(r: Stored, p: Period)
    requires r.Present? && Agrees(r.deal)
    ensures Qualifies(r, p) <==>
            && !r.archived && r.deal.stage.value in {Won, Running, Completed, Lost}
            && exists i :: 0 <= i < |r.deal.log| && IsSettled(r.deal.log[i]) && p.start <= r.deal.log[i].at < p.end
  {
    var log := r.deal.log;
    forall i | 0 <= i < |log| ensures IsDecision(log[i]) <==> IsSettled(log[i]) {
      assert log[i].from != Some(log[i].to);
    }
  }

  /** A move between the open pipeline, the won side and the lost one that ends on one of the two, but for a draft that is dropped. */
  predicate IsSettled(e: StageEvent) {
    if e.to in {Won, Running, Completed} then e.from.None? || e.from.value !in {Won, Running, Completed}
    else e.to == Lost && e.from !in {Some(Lost), Some(Draft)}
  }

  /** Every decision is a crossing, and a crossing onto a side is a decision unless it drops a draft. */
  lemma CrossingIsDecision(e: StageEvent)
    requires IsDecided(e.to)
    ensures IsDecision(e) ==> Crosses(e) || e.from == Some(Lost)
    ensures Crosses(e) ==> (IsDecision(e) <==> !(e.from == Some(Draft) && e.to == Lost))
  {
  }

  /**
   A live, decided deal that was closed in the period is counted exactly if its last crossing was
   not from a draft to lost, or an earlier decision fell into the period too.
   */
  lemma ClosedInThePeriodExactly(r: Stored, p: Period) returns (i: nat)
    requires r.Present? && !r.archived && Agrees(r.deal) && IsDecided(r.deal.stage.value) && Contains(p, r.deal.closedAt.value)
    ensures i < |r.deal.log| && Crosses(r.deal.log[i]) && (forall j | i < j < |r.deal.log| :: !Crosses(r.deal.log[j]))
    ensures Qualifies(r, p) <==>
              || !(r.deal.log[i].from == Some(Draft) && r.deal.log[i].to == Lost)
              || IsDecidedIn(r.deal.log[..i], p)
  {
    var log := r.deal.log;
    i := CrossingOntoThisSide(log);
    CrossingIsDecision(log[i]);
    if IsDecidedIn(log, p) {
      var k :| 0 <= k < |log| && IsDecision(log[k]) && Contains(p, log[k].at);
      if k < i {
        assert log[..i][k] == log[k];
      }
    }
    if IsDecidedIn(log[..i], p) {
      var k :| 0 <= k < i && IsDecision(log[..i][k]) && Contains(p, log[..i][k].at);
      assert log[k] == log[..i][k];
    }
  }

  /** A draft that is dropped is closed, and not counted. */
  lemma DroppedDraftIsNotCounted(body: Deal, p: Period, now: Time)
    requires Contains(p, now) && Created(body, Draft, None, now).Some?
    ensures var lost := StageChanged(Created(body, Draft, None, now).value, Lost, None, now);
            && lost.Some? && lost.value.closedAt == Some(now)
            && !Qualifies(Present(lost.value, false, 2), p)
  {
    var lost := StageChanged(Created(body, Draft, None, now).value, Lost, None, now).value;
    assert lost.log == [StageEvent(None, Draft, now, None), StageEvent(Some(Draft), Lost, now, None)];
  }
}
