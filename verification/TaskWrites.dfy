/**
 What a request does to its task (backend/app/routers/tasks.py, `create_task`, `update_task`,
 `archive_task`, `delete_task`), said of the committed rows in any run of interleaved requests.
 */
module TaskWrites {
  import opened Fields
  import opened Options
  import opened Recurrence
  import opened TaskSeries

  // ---- The columns a commit writes ----

  /** When a task was done: now if it is done just now, never if it is open, and else as it was. */
  ghost predicate IsStamped(before: Task, after: Task, at: Instant) {
    if before.done == after.done then after.completedAt == before.completedAt
    else after.completedAt == if after.done then Some(at) else None
  }

  /** A PATCH of `at`: what was sent is there, and everything else is as it was. */
  ghost predicate IsPatched(before: Task, after: Task, u: Update, at: Instant) {
    && IsSet(u.content, before.content, after.content) && IsSet(u.interval, before.interval, after.interval)
    && IsSet(u.done, before.done, after.done)
    && IsPut(u.due, before.due, after.due) && IsPut(u.rule, before.rule, after.rule) && IsPut(u.until, before.until, after.until)
    && IsStamped(before, after, at)
    && after.archivedAt == before.archivedAt && after.parent == before.parent && after.version == before.version + 1
  }

  /** An archiving or restoring of `at`, of a task that was not there yet. */
  ghost predicate IsMoved(before: Task, after: Task, archived: bool, at: Instant) {
    && before.archivedAt.Some? != archived
    && after == before.(archivedAt := if archived then Some(at) else None, version := before.version + 1)
  }

  ghost predicate IsWritten(before: Task, after: Task, operation: Operation, at: Instant) {
    match operation
    case Patch(u) => IsPatched(before, after, u, at)
    case SetArchived(archived) => IsMoved(before, after, archived, at)
    case Erase => false
  }

  /** The transaction has issued its UPDATE. */
  predicate HasFlushed(s: State, x: nat) { x in s.open && !s.open[x].phase.Loaded? }

  /** When the transaction that holds its row issued its UPDATE. */
  ghost function FlushedAt(events: seq<Event>, x: nat): Option<Instant> {
    if events == [] || !HasFlushed(Run(events), x) then None
    else
      var init, last := events[..|events| - 1], events[|events| - 1];
      if HasFlushed(Run(init), x) then FlushedAt(init, x)
      else if last.Flush? then Some(last.now) else None
  }

  ghost predicate HasWritten(s: State, x: nat, at: Instant)
    requires HasFlushed(s, x)
  {
    var t := s.open[x];
    IsWritten(t.copy, t.phase.written.(parent := t.copy.parent), t.operation, at)
  }

  lemma FlushWrites(s: State, x: nat, now: Instant)
    requires !HasFlushed(s, x) && HasFlushed(AfterFlush(s, x, now), x)
    ensures HasWritten(AfterFlush(s, x, now), x, now)
  {
  }

  /** A transaction that holds its row does not change what it has written. */
  lemma StepKeepsWritten(s: State, e: Event, x: nat)
    requires HasFlushed(After(s, e), x)
    ensures HasFlushed(s, x) ==>
              var t, u := s.open[x], After(s, e).open[x];
              u.task == t.task && u.copy == t.copy && u.operation == t.operation && u.phase.written == t.phase.written
    ensures !HasFlushed(s, x) ==> e.Flush? && e.x == x
  {
  }

  lemma {:induction false} FlushedHasWritten(events: seq<Event>, x: nat)
    requires HasFlushed(Run(events), x)
    ensures FlushedAt(events, x).Some? && HasWritten(Run(events), x, FlushedAt(events, x).value)
  {
    if events != [] {
      var init, last := events[..|events| - 1], events[|events| - 1];
      StepKeepsWritten(Run(init), last, x);
      if HasFlushed(Run(init), x) {
        FlushedHasWritten(init, x);
      } else {
        FlushWrites(Run(init), x, last.now);
      }
    }
  }

  /** A patch is of a task that is not archived and, if it names a version, of that version. */
  ghost predicate IsAdmitted(before: Task, operation: Operation) {
    operation.Patch? ==>
      before.archivedAt.None? && (operation.update.version.Some? ==> operation.update.version.value == before.version)
  }

  /**
   In every run, a commit writes what its request sent into the row as it is by then, and nothing
   else: no other request got in between. Completing dates the task to the moment of the UPDATE,
   reopening clears the date, and every other request keeps it.
   */
  lemma CommitWrites(events: seq<Event>, x: nat)
    requires var s := Run(events); x in s.open && s.open[x].phase.Decided?
    ensures var s, next := Run(events), Run(events + [Commit(x)]);
            var id := s.open[x].task;
            && id in s.rows && id in next.rows && FlushedAt(events, x).Some?
            && IsAdmitted(s.rows[id], s.open[x].operation)
            && IsWritten(s.rows[id], next.rows[id], s.open[x].operation, FlushedAt(events, x).value)
            && forall other | other in s.rows && other != id :: other in next.rows && next.rows[other] == s.rows[other]
  {
    var s := Run(events);
    assert (events + [Commit(x)])[..|events|] == events;
    RunKeepsInv(events);
    FlushedHasWritten(events, x);
    assert IsSound(s, s.open[x]);
    CopyIsTheRow(s, s.open[x], FlushedAt(events, x).value);
  }

  lemma CopyIsTheRow(s: State, t: Transaction, at: Instant)
    requires IsSound(s, t) && t.phase.Decided?
    requires IsWritten(t.copy, t.phase.written.(parent := t.copy.parent), t.operation, at)
    ensures IsWritten(s.rows[t.task], t.phase.written, t.operation, at) && IsAdmitted(s.rows[t.task], t.operation)
  {
    var row := s.rows[t.task];
    assert row.(parent := None) == t.copy.(parent := None);
    assert row == t.copy.(parent := row.parent);
  }

  /** A row changes only when its own request commits, or loses its parent when that is erased. */
  lemma OnlyItsCommitWrites(events: seq<Event>, e: Event, id: nat)
    requires var s, next := Run(events), Run(events + [e]);
             id in s.rows && id in next.rows && next.rows[id] != s.rows[id]
    ensures var s, next := Run(events), Run(events + [e]);
            || (e.Commit? && e.x in s.open && s.open[e.x].phase.Decided? && s.open[e.x].task == id)
            || (e.Flush? && s.rows[id].parent.Some? && s.rows[id].parent.value !in next.rows
                && next.rows[id] == s.rows[id].(parent := None))
  {
    assert (events + [e])[..|events|] == events;
    RunKeepsInv(events);
    StepWrites(Run(events), e, id);
  }

  lemma StepWrites(s: State, e: Event, id: nat)
    requires ParentsAreOlder(s) && id in s.rows && id in After(s, e).rows && After(s, e).rows[id] != s.rows[id]
    ensures || (e.Commit? && e.x in s.open && s.open[e.x].phase.Decided? && s.open[e.x].task == id)
            || (e.Flush? && s.rows[id].parent.Some? && s.rows[id].parent.value !in After(s, e).rows
                && After(s, e).rows[id] == s.rows[id].(parent := None))
  {
    if e.Flush? {
      FlushOutcomes(s, e.x, e.now);
    }
  }

  /** Only an archived task is erased, and its successor stays, without a parent. */
  lemma OnlyArchivedIsErased(events: seq<Event>, e: Event, id: nat)
    requires id in Run(events).rows && id !in Run(events + [e]).rows
    ensures var s, next := Run(events), Run(events + [e]);
            && s.rows[id].archivedAt.Some? && next.rows.Keys == s.rows.Keys - {id}
            && forall c | c in next.rows :: next.rows[c] == if s.rows[c].parent == Some(id) then s.rows[c].(parent := None) else s.rows[c]
  {
    assert (events + [e])[..|events|] == events;
    RunKeepsInv(events);
    var s := Run(events);
    if e.Flush? {
      FlushOutcomes(s, e.x, e.now);
      assert IsSound(s, s.open[e.x]);
      CurrentIsArchived(s, s.open[e.x]);
    }
  }

  lemma CurrentIsArchived(s: State, t: Transaction)
    requires IsCurrent(s, t) && t.operation == Erase && t.task in s.rows && s.rows[t.task].version == t.copy.version
    ensures s.rows[t.task].archivedAt.Some?
  {
    assert s.rows[t.task].(parent := None).archivedAt == t.copy.(parent := None).archivedAt;
  }

  // ---- Every row makes sense ----

  /** A rule has a date to repeat from, and an end only behind it; without a rule there is no end. */
  ghost predicate IsCoherent(t: Task) {
    && (t.rule.None? ==> t.until.None?)
    && (t.rule.Some? ==> t.due.Some? && (t.until.Some? ==> !Before(t.until.value, t.due.value)))
  }

  ghost predicate AreCoherent(s: State) {
    && (forall id | id in s.rows :: IsCoherent(s.rows[id]))
    && forall x | HasFlushed(s, x) :: IsCoherent(s.open[x].phase.written)
  }

  lemma FlushIsCoherent(s: State, x: nat, now: Instant)
    requires Inv(s) && AreCoherent(s) && Matches(s, x) && s.open[x].operation != Erase
    ensures IsCoherent(Writing(s, s.open[x], now).phase.written)
  {
    var t := s.open[x];
    assert IsSound(s, t);
    assert s.rows[t.task].(parent := None) == t.copy.(parent := None);
    assert IsCoherent(s.rows[t.task]) && IsCoherent(t.copy);
  }

  lemma FlushKeepsCoherent(s: State, x: nat, now: Instant)
    requires Inv(s) && AreCoherent(s)
    ensures AreCoherent(AfterFlush(s, x, now))
  {
    var next := AfterFlush(s, x, now);
    FlushOutcomes(s, x, now);
    if Matches(s, x) && s.open[x].operation != Erase {
      FlushIsCoherent(s, x, now);
    }
    forall y | HasFlushed(next, y) ensures IsCoherent(next.open[y].phase.written) {
      assert HasFlushed(s, y) || y == x;
    }
  }

  lemma CommitKeepsCoherent(s: State, x: nat)
    requires Inv(s) && AreCoherent(s)
    ensures AreCoherent(AfterCommit(s, x))
  {
    var next := AfterCommit(s, x);
    if x in s.open && s.open[x].phase.Decided? {
      assert HasFlushed(s, x) && IsSound(s, s.open[x]);
    }
    forall y | HasFlushed(next, y) ensures IsCoherent(next.open[y].phase.written) {
      assert HasFlushed(s, y);
    }
  }

  lemma StepKeepsCoherent(s: State, e: Event)
    requires Inv(s) && AreCoherent(s)
    ensures AreCoherent(After(s, e))
  {
    match e {
      case Flush(x, now) => FlushKeepsCoherent(s, x, now);
      case Commit(x) => CommitKeepsCoherent(s, x);
      case _ =>
        forall y | HasFlushed(After(s, e), y) ensures IsCoherent(After(s, e).open[y].phase.written) {
          StepKeepsWritten(s, e, y);
          assert HasFlushed(s, y);
        }
    }
  }

  /** In every run every row is one that `validate_recurrence` accepts, successors included. */
  lemma {:induction false} RowsStayCoherent(events: seq<Event>)
    ensures AreCoherent(Run(events))
  {
    if events != [] {
      RunKeepsInv(events[..|events| - 1]);
      RowsStayCoherent(events[..|events| - 1]);
      StepKeepsCoherent(Run(events[..|events| - 1]), events[|events| - 1]);
    }
  }

  // ---- Requests that nothing disturbs ----

  /** A task is stored as it was sent, open or done now, if its recurrence makes sense, and else not at all. */
  lemma CreatedAsSent(s: State, body: Task, now: Instant)
    ensures var next := After(s, Create(body, now));
            if IsCoherent(body)
            then next.rows == s.rows[s.nextId := Task(body.content, body.due, body.rule, body.interval, body.until, body.done,
                                                      if body.done then Some(now) else None, None, None, 1)]
                 && next.nextId == s.nextId + 1 && next.open == s.open
            else next == s
  {
  }

  /** What a request leaves that runs on its own. */
  function Alone(s: State, x: nat, id: nat, operation: Operation, now: Instant): State {
    After(After(After(After(s, Load(x, id, operation)), Flush(x, now)), Decide(x, now)), Commit(x))
  }

  /** A patch that the rules let through, of a task that nobody holds. */
  ghost predicate IsFree(s: State, x: nat, id: nat, u: Update) {
    && x !in s.open && id in s.rows && s.rows[id].archivedAt.None?
    && (forall y | y in s.open :: !HoldsLock(s.open[y], id))
    && (u.version.Some? ==> u.version.value == s.rows[id].version)
    && !u.content.Null? && !u.interval.Null? && !u.done.Null?
  }

  ghost predicate IsCoherentAfter(t: Task, u: Update) {
    forall due, rule, until | IsPut(u.due, t.due, due) && IsPut(u.rule, t.rule, rule) && IsPut(u.until, t.until, until) ::
      IsCoherent(t.(due := due, rule := rule, until := until))
  }

  lemma FreePatchIsLoaded(s: State, x: nat, id: nat, u: Update)
    requires IsFree(s, x, id, u) && IsCoherentAfter(s.rows[id], u)
    ensures After(s, Load(x, id, Patch(u))) == s.(open := s.open[x := Transaction(id, s.rows[id], Patch(u), Loaded)])
  {
    var t := s.rows[id];
    assert IsPut(u.due, t.due, Merged(u.due, t.due)) && IsPut(u.rule, t.rule, Merged(u.rule, t.rule));
    assert IsPut(u.until, t.until, Merged(u.until, t.until));
    assert IsCoherent(t.(due := Merged(u.due, t.due), rule := Merged(u.rule, t.rule), until := Merged(u.until, t.until)));
  }

  lemma PatchedIsUnique(before: Task, after: Task, u: Update, now: Instant)
    requires IsPatched(before, after, u, now)
    ensures after == Patched(before, u, now).(version := before.version + 1)
  {
  }

  lemma FreePatchIsFlushed(s: State, x: nat, id: nat, u: Update, now: Instant, row: Task)
    requires IsFree(s, x, id, u) && IsCoherentAfter(s.rows[id], u) && IsPatched(s.rows[id], row, u, now)
    ensures var next := After(After(s, Load(x, id, Patch(u))), Flush(x, now));
            if row == s.rows[id].(version := row.version) then next == s
            else next == s.(open := s.open[x := Transaction(id, s.rows[id], Patch(u), Flushed(row))])
  {
    var t := Transaction(id, s.rows[id], Patch(u), Loaded);
    var loaded := s.(open := s.open[x := t]);
    FreePatchIsLoaded(s, x, id, u);
    PatchedIsUnique(s.rows[id], row, u, now);
    assert !IsLocked(loaded, id) by {
      forall y | y in loaded.open ensures !HoldsLock(loaded.open[y], id) {
        assert y in s.open ==> !HoldsLock(s.open[y], id);
      }
    }
    assert loaded.open - {x} == s.open;
  }

  /** A patch that completes nothing is written as it was sent, unless it says nothing new. */
  lemma FreePatchIsWritten(s: State, x: nat, id: nat, u: Update, now: Instant, row: Task)
    requires IsFree(s, x, id, u) && IsCoherentAfter(s.rows[id], u) && IsPatched(s.rows[id], row, u, now)
    requires row.done ==> s.rows[id].done
    ensures Alone(s, x, id, Patch(u), now)
         == if row == s.rows[id].(version := row.version) then s else s.(rows := s.rows[id := row])
  {
    FreePatchIsFlushed(s, x, id, u, now, row);
    assert s.open[x := Transaction(id, s.rows[id], Patch(u), Decided(row, None))] - {x} == s.open;
  }

  /** The task that comes next in a series. */
  function NextOf(row: Task, id: nat, due: Instant): Task {
    Task(row.content, Some(due), row.rule, row.interval, row.until, false, None, Some(id), None, 1)
  }

  lemma ReopenAndClose(s: State, x: nat, t: Transaction, u: Transaction)
    requires x !in s.open
    ensures s.open[x := t][x := u] - {x} == s.open && s.open[x := t] - {x} == s.open
  {
    assert s.open - {x} == s.open;
  }

  /** From the UPDATE of a completion to its COMMIT. */
  lemma SettlesAndCommits(s: State, x: nat, t: Transaction, now: Instant)
    requires x !in s.open && t.phase.Flushed? && t.phase.written.done && !t.copy.done
    ensures var next := After(After(s.(open := s.open[x := t]), Decide(x, now)), Commit(x));
            var row := t.phase.written;
            next == match Successor(row, t.task, HasChild(s.rows, t.task), now)
                    case None => s
                    case Some(None) => s.(rows := s.rows[t.task := row])
                    case Some(Some(child)) => s.(rows := s.rows[t.task := row][s.nextId := child], nextId := s.nextId + 1)
  {
    var found := Successor(t.phase.written, t.task, HasChild(s.rows, t.task), now);
    ReopenAndClose(s, x, t, if found.Some? then t.(phase := Decided(t.phase.written, found.value)) else t);
  }

  /** What a completion leaves if this is the next date. */
  function WithNext(s: State, id: nat, row: Task, next: Next): State {
    match next
    case Failed(_) => s
    case SeriesOver => s.(rows := s.rows[id := row])
    case Due(due) =>
      if IsMoment(due)
      then s.(rows := s.rows[id := row][s.nextId := NextOf(row, id, due)], nextId := s.nextId + 1) else s
  }

  /**
   Completing a task adds the next one of its series exactly if it repeats, has no successor yet
   and the series is not over; if the next date cannot be told, nothing is written at all.
   */
  lemma CompletionSpawns(s: State, x: nat, id: nat, u: Update, now: Instant, row: Task)
    requires IsFree(s, x, id, u) && IsCoherentAfter(s.rows[id], u) && IsPatched(s.rows[id], row, u, now)
    requires row.done && !s.rows[id].done
    ensures var next := Alone(s, x, id, Patch(u), now);
            if row.rule.None? || (exists c | c in s.rows :: s.rows[c].parent == Some(id)) then next == s.(rows := s.rows[id := row])
            else row.due.Some? && next == WithNext(s, id, row, NextDueDate(row.due.value, row.rule.value, row.interval, now, row.until))
  {
    FreePatchIsFlushed(s, x, id, u, now, row);
    SettlesAndCommits(s, x, Transaction(id, s.rows[id], Patch(u), Flushed(row)), now);
    PatchedIsCoherent(s.rows[id], row, u, now);
  }

  lemma PatchedIsCoherent(before: Task, row: Task, u: Update, now: Instant)
    requires IsCoherentAfter(before, u) && IsPatched(before, row, u, now)
    ensures IsCoherent(row)
  {
    assert IsCoherent(before.(due := row.due, rule := row.rule, until := row.until));
  }
}
