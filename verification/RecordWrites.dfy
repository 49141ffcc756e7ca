/**
 What a request does to an organization and its history (backend/app/audit.py,
 backend/app/archive.py, backend/app/routers/organizations.py), column by column.
 */
module RecordWrites {
  import opened Clock
  import opened Options
  import opened History

  /** The entry names what is different, with what was there and what is there now. */
  ghost predicate IsDifference(before: Content, after: Content, changes: Changes) {
    && (forall f :: f in changes <==> f in before && f in after && before[f] != after[f])
    && (forall f | f in changes :: f in before && f in after && changes[f] == Change(before[f], after[f]))
  }

  /** Every column is as it was sent, or as it was. */
  ghost predicate IsSent(before: Content, after: Content, updates: Content) {
    && after.Keys == before.Keys && updates.Keys <= before.Keys
    && forall f | f in before :: after[f] == if f in updates then updates[f] else before[f]
  }

  /** One entry more, one version more. */
  ghost predicate IsEntered(before: Stored, after: Stored, e: AuditEvent)
    requires before.Present? && after.Present?
  {
    after.events == before.events + [e] && after.row.version == before.row.version + 1
  }

  ghost predicate IsEdited(before: Stored, after: Stored, updates: Content)
    requires before.Present? && after.Present?
  {
    && before.row.archivedAt.None? && after.row.archivedAt.None?
    && IsSent(before.row.content, after.row.content, updates) && after.row.content != before.row.content
    && Name in after.row.content && after.row.content[Name].Some?
    && |after.events| == |before.events| + 1 && after.events[|before.events|].action == Updated
    && IsDifference(before.row.content, after.row.content, after.events[|before.events|].changes)
    && IsEntered(before, after, after.events[|before.events|])
  }

  /** What a request that changes anything makes of a record and its history. */
  ghost predicate IsWritten(before: Stored, after: Stored, request: Request, now: Time) {
    && before.Present?
    && match request
       case Patch(version, updates) =>
         (version.Some? ==> version.value == before.row.version) && after.Present? && IsEdited(before, after, updates)
       case FillDomain(domain) =>
         && domain != "" && Domain in before.row.content && before.row.content[Domain] in {None, Some("")}
         && after.Present? && IsEdited(before, after, map[Domain := Some(domain)])
       case SetArchived(archived) =>
         && before.row.archivedAt.Some? != archived
         && after.Present? && after.row.content == before.row.content && after.row.archivedAt == (if archived then Some(now) else None)
         && (Name in after.row.content && after.row.content[Name].Some?)
         && IsEntered(before, after, AuditEvent(if archived then Archived else Restored, map[]))
       case Erase => before.row.archivedAt.Some? && after == Erased
  }

  lemma DiffIsDifference(before: Content, after: Content, changes: Changes)
    requires before.Keys == after.Keys
    ensures Diff(before, after) == changes <==> IsDifference(before, after, changes)
  {
    if IsDifference(before, after, changes) {
      assert Diff(before, after).Keys == changes.Keys;
    }
  }

  lemma UpdateIsSent(before: Content, updates: Content)
    requires (before + updates).Keys == before.Keys
    ensures IsSent(before, before + updates, updates)
  {
    forall f | f in updates ensures f in before {
      assert f in before + updates;
    }
  }

  // ---- What a commit writes ----

  /** The request that a transaction is for. */
  ghost function Opening(events: seq<Event>, x: nat): Option<Event> {
    if events == [] || x !in Run(events).open then None
    else
      var init, last := events[..|events| - 1], events[|events| - 1];
      if x in Run(init).open then Opening(init, x) else Some(last)
  }

  ghost predicate IsOpening(e: Event, x: nat, t: Transaction) {
    e.Load? && e.x == x && e.request == t.request && t.written == Changed(t.copy, e.request, e.now)
  }

  lemma {:induction false} OpenedByLoad(events: seq<Event>, x: nat)
    requires x in Run(events).open
    ensures Opening(events, x).Some? && IsOpening(Opening(events, x).value, x, Run(events).open[x])
  {
    if events != [] && x in Run(events[..|events| - 1]).open {
      OpenedByLoad(events[..|events| - 1], x);
    }
  }

  lemma EditIsWritten(before: Stored, updates: Content)
    requires before.Present? && before.row.archivedAt.None? && IsComplete(before.row.content)
    requires var content := before.row.content + updates;
             content.Keys == before.row.content.Keys && content != before.row.content && content[Name].Some?
    ensures var content := before.row.content + updates;
            var changes := Diff(before.row.content, content);
            && changes != map[]
            && IsEdited(before, Present(Row(content, None, before.row.version + 1), before.events + [AuditEvent(Updated, changes)]), updates)
  {
    var content := before.row.content + updates;
    UpdateIsSent(before.row.content, updates);
    DiffExactly(before.row.content, content);
    DiffIsDifference(before.row.content, content, Diff(before.row.content, content));
  }

  lemma FilledIsUpdated(content: Content, domain: string)
    ensures content[Domain := Some(domain)] == content + map[Domain := Some(domain)]
  {
  }

  lemma ChangeIsWritten(before: Stored, request: Request, now: Time)
    requires before.Present? && IsComplete(before.row.content) && IsAllowed(before.row, request) && request != Erase
    requires var w := Changed(before.row, request, now);
             w != before.row && w.content.Keys == before.row.content.Keys && w.content[Name].Some?
    ensures var w := Changed(before.row, request, now);
            IsWritten(before, Present(w.(version := before.row.version + 1), before.events + Recorded(before.row, w)), request, now)
  {
    match request
    case Patch(_, updates) => EditIsWritten(before, updates);
    case FillDomain(domain) =>
      FilledIsUpdated(before.row.content, domain);
      EditIsWritten(before, map[Domain := Some(domain)]);
    case _ =>
  }

  /**
   In every run, whichever requests race: a commit that changes the record makes of it, as it is by
   then, what its request is for, and adds the one entry that says so.
   */
  lemma CommitWrites(events: seq<Event>, x: nat)
    requires Run(events + [Commit(x)]).stored != Run(events).stored
    ensures var e := Opening(events, x);
            && e.Some? && e.value.Load? && e.value.x == x
            && IsWritten(Run(events).stored, Run(events + [Commit(x)]).stored, e.value.request, e.value.now)
  {
    var s := Run(events);
    assert (events + [Commit(x)])[..|events|] == events;
    RunKeepsInv(events);
    OpenedByLoad(events, x);
    var t, e := s.open[x], Opening(events, x).value;
    assert IsSound(s, t);
    if t.request != Erase {
      ChangeIsWritten(s.stored, e.request, e.now);
    }
  }

  // ---- A request that nothing disturbs ----

  lemma EditIsUnique(before: Stored, after: Stored, updates: Content)
    requires before.Present? && after.Present? && IsEdited(before, after, updates)
    ensures var content := before.row.content + updates;
            && content.Keys == before.row.content.Keys && content != before.row.content
            && after == Present(Row(content, None, before.row.version + 1),
                                before.events + [AuditEvent(Updated, Diff(before.row.content, content))])
            && Diff(before.row.content, content) != map[]
  {
    assert after.row.content == before.row.content + updates;
    DiffExactly(before.row.content, after.row.content);
    DiffIsDifference(before.row.content, after.row.content, after.events[|before.events|].changes);
  }

  lemma WrittenIsChange(before: Stored, after: Stored, request: Request, now: Time)
    requires before.Present? && IsComplete(before.row.content) && IsWritten(before, after, request, now) && request != Erase
    ensures var w := Changed(before.row, request, now);
            && IsAllowed(before.row, request) && w != before.row && w.content.Keys == before.row.content.Keys && w.content[Name].Some?
            && after == Present(w.(version := before.row.version + 1), before.events + Recorded(before.row, w))
  {
    match request
    case Patch(_, updates) => EditIsUnique(before, after, updates);
    case FillDomain(domain) =>
      FilledIsUpdated(before.row.content, domain);
      EditIsUnique(before, after, map[Domain := Some(domain)]);
    case _ =>
  }

  lemma LoadAndCommit(s: State, x: nat, request: Request, now: Time)
    requires Inv(s) && s.stored.Present? && x !in s.open && IsAllowed(s.stored.row, request) && request != Erase
    requires var w := Changed(s.stored.row, request, now);
             w != s.stored.row && w.content.Keys == s.stored.row.content.Keys && w.content[Name].Some?
    ensures var w := Changed(s.stored.row, request, now);
            AfterCommit(AfterLoad(s, x, request, now), x).stored
            == Present(w.(version := s.stored.row.version + 1), s.stored.events + Recorded(s.stored.row, w))
  {
  }

  lemma LoadAndErase(s: State, x: nat, now: Time)
    requires Inv(s) && s.stored.Present? && x !in s.open && s.stored.row.archivedAt.Some?
    ensures AfterCommit(AfterLoad(s, x, Erase, now), x).stored == Erased
  {
  }

  /** A request for a change that is allowed is written, as soon as nothing comes in between. */
  lemma FreeRequestIsWritten(s: State, x: nat, request: Request, now: Time, after: Stored)
    requires Inv(s) && x !in s.open && IsWritten(s.stored, after, request, now)
    ensures AfterCommit(AfterLoad(s, x, request, now), x).stored == after
  {
    if request == Erase {
      LoadAndErase(s, x, now);
    } else {
      WrittenIsChange(s.stored, after, request, now);
      LoadAndCommit(s, x, request, now);
    }
  }
}
