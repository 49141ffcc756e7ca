/**
 The change history of an organization (backend/app/audit.py, backend/app/archive.py): a version
 that counts the writes, an event for each, and requests that race. Of all record types its
 history is the one that holds every content field.
 */
module History {
  import opened Clock
  import opened Options

  datatype Column = Name | Domain | Email | Phone | Address | Industry | Notes

  /** A snapshot: every content column with its value. */
  type Content = map<Column, Option<string>>

  datatype Change = Change(was: Option<string>, became: Option<string>)

  type Changes = map<Column, Change>

  datatype Action = Updated | Archived | Restored

  datatype AuditEvent = AuditEvent(action: Action, changes: Changes)

  datatype Row = Row(content: Content, archivedAt: Option<Time>, version: nat)

  datatype Request =
    | Patch(version: Option<nat>, updates: Content)
    | SetArchived(archived: bool)
    | FillDomain(domain: string)
    | Erase

  predicate IsComplete(c: Content) { c.Keys == {Name, Domain, Email, Phone, Address, Industry, Notes} }

  /** `diff` */
  function Diff(before: Content, after: Content): Changes
    requires before.Keys == after.Keys
  {
    map f | f in before && after[f] != before[f] :: Change(before[f], after[f])
  }

  /** The new values of an event put into a row. */
  function Applied(c: Content, changes: Changes): Content {
    map f | f in c :: if f in changes then changes[f].became else c[f]
  }

  /** The old values of an event put back. */
  function Reverted(c: Content, changes: Changes): Content {
    map f | f in c :: if f in changes then changes[f].was else c[f]
  }

  function Replayed(origin: Content, events: seq<AuditEvent>): Content {
    if events == [] then origin else Applied(Replayed(origin, events[..|events| - 1]), events[|events| - 1].changes)
  }

  function Undone(c: Content, events: seq<AuditEvent>): Content
    decreases |events|
  {
    if events == [] then c else Undone(Reverted(c, events[|events| - 1].changes), events[..|events| - 1])
  }

  // ---- One request ----

  /** `require_live`, `require_archived`, `check_version`, and the importer's own conditions. */
  predicate IsAllowed(row: Row, request: Request) {
    match request
    case Patch(version, _) => row.archivedAt.None? && (version.Some? ==> version.value == row.version)
    case SetArchived(_) => true
    case FillDomain(domain) =>
      row.archivedAt.None? && domain != "" && (Domain in row.content ==> row.content[Domain].GetOr("") == "")
    case Erase => row.archivedAt.Some?
  }

  /** The row as the request leaves it in memory. */
  function Changed(row: Row, request: Request, now: Time): Row {
    match request
    case Patch(_, updates) => row.(content := row.content + updates)
    case SetArchived(archived) =>
      if archived == row.archivedAt.Some? then row else row.(archivedAt := if archived then Some(now) else None)
    case FillDomain(domain) => row.(content := row.content[Domain := Some(domain)])
    case Erase => row
  }

  /** The entry it adds: what `record_update` or `set_archived` records, if anything. */
  function Recorded(before: Row, after: Row): seq<AuditEvent>
    requires before.content.Keys == after.content.Keys
  {
    if before.archivedAt != after.archivedAt then [AuditEvent(if after.archivedAt.Some? then Archived else Restored, map[])]
    else
      var changes := Diff(before.content, after.content);
      if changes == map[] then [] else [AuditEvent(Updated, changes)]
  }

  // ---- Requests that race ----

  datatype Stored = Missing | Present(row: Row, events: seq<AuditEvent>) | Erased

  /** What a request has loaded, what it will write, and the entries it will add. */
  datatype Transaction = Transaction(request: Request, copy: Row, written: Row, added: seq<AuditEvent>)

  /** `origin` is what the record was created with. */
  datatype State = State(stored: Stored, origin: Content, open: map<nat, Transaction>)

  datatype Event =
    | Create(body: Content)
    | Load(x: nat, request: Request, now: Time)
    | Commit(x: nat)
    | Rollback(x: nat)

  function Closed(s: State, x: nat): State { s.(open := s.open - {x}) }

  function AfterCreate(s: State, body: Content): State {
    if s.stored.Missing? && IsComplete(body) && body[Name].Some? then s.(stored := Present(Row(body, None, 1), []), origin := body) else s
  }

  function AfterLoad(s: State, x: nat, request: Request, now: Time): State {
    if x in s.open || !s.stored.Present? || !IsComplete(s.stored.row.content) || !IsAllowed(s.stored.row, request) then s
    else
      var written := Changed(s.stored.row, request, now);
      if written.content.Keys != s.stored.row.content.Keys then s
      else s.(open := s.open[x := Transaction(request, s.stored.row, written, Recorded(s.stored.row, written))])
  }

  /** Nothing to write, or an UPDATE (a DELETE) that finds the version it loaded. */
  predicate Succeeds(s: State, x: nat)
    requires x in s.open
  {
    var t := s.open[x];
    || (t.request != Erase && t.written == t.copy)
    || (s.stored.Present? && s.stored.row.version == t.copy.version && (t.request == Erase || (Name in t.written.content && t.written.content[Name].Some?)))
  }

  function AfterCommit(s: State, x: nat): State {
    if x !in s.open || !Succeeds(s, x) || (s.open[x].request != Erase && s.open[x].written == s.open[x].copy) then Closed(s, x)
    else if s.open[x].request == Erase then Closed(s.(stored := Erased), x)
    else
      var t := s.open[x];
      Closed(s.(stored := Present(t.written.(version := t.copy.version + 1), s.stored.events + t.added)), x)
  }

  function After(s: State, e: Event): State {
    match e
    case Create(body) => AfterCreate(s, body)
    case Load(x, request, now) => AfterLoad(s, x, request, now)
    case Commit(x) => AfterCommit(s, x)
    case Rollback(x) => Closed(s, x)
  }

  function Run(events: seq<Event>): State {
    if events == [] then State(Missing, map[], map[]) else After(Run(events[..|events| - 1]), events[|events| - 1])
  }

  // ---- The diff ----

  /** A diff names exactly what differs, and leads from either side to the other. */
  lemma DiffExactly(before: Content, after: Content)
    requires before.Keys == after.Keys
    ensures forall f | f in before :: f in Diff(before, after) <==> before[f] != after[f]
    ensures Applied(before, Diff(before, after)) == after
    ensures Reverted(after, Diff(before, after)) == before
    ensures Diff(before, after) == map[] <==> before == after
  {
    if before != after {
      var f :| f in before && before[f] != after[f];
      assert f in Diff(before, after);
    }
  }

  // ---- The history is the row ----

  /** Whether the archiving and restoring that is recorded leaves the record put away. */
  function IsPutAway(events: seq<AuditEvent>): bool {
    if events == [] then false
    else
      match events[|events| - 1].action
      case Updated => IsPutAway(events[..|events| - 1])
      case Archived => true
      case Restored => false
  }

  /** Every entry says something: an update what it changed, from what it found; the others a change of state. */
  ghost predicate IsTrueHistory(origin: Content, events: seq<AuditEvent>) {
    forall i | 0 <= i < |events| :: IsTrueEntry(Replayed(origin, events[..i]), IsPutAway(events[..i]), events[i])
  }

  ghost predicate IsTrueEntry(found: Content, putAway: bool, e: AuditEvent) {
    match e.action
    case Updated => !putAway && e.changes != map[] && forall f | f in e.changes :: f in found && e.changes[f].was == found[f] != e.changes[f].became
    case Archived => !putAway && e.changes == map[]
    case Restored => putAway && e.changes == map[]
  }

  ghost predicate Tells(origin: Content, row: Row, events: seq<AuditEvent>) {
    && IsComplete(row.content) && IsComplete(origin)
    && row.version == 1 + |events|
    && Replayed(origin, events) == row.content
    && Undone(row.content, events) == origin
    && (row.archivedAt.Some? <==> IsPutAway(events))
    && IsTrueHistory(origin, events)
  }

  lemma OneMoreEntry(origin: Content, row: Row, events: seq<AuditEvent>, written: Row)
    requires Tells(origin, row, events) && written != row && IsComplete(written.content) && written.version == row.version
    requires written.archivedAt == row.archivedAt || (written.archivedAt.Some? != row.archivedAt.Some? && written.content == row.content)
    requires written.archivedAt == row.archivedAt ==> row.archivedAt.None?
    ensures |Recorded(row, written)| == 1
    ensures Tells(origin, written.(version := row.version + 1), events + Recorded(row, written))
  {
    DiffExactly(row.content, written.content);
    var e := Recorded(row, written)[0];
    var later := events + [e];
    assert later[..|events|] == events;
    assert Recorded(row, written) == [e];
    assert Applied(row.content, e.changes) == written.content && Reverted(written.content, e.changes) == row.content;
    forall i | 0 <= i < |later| ensures IsTrueEntry(Replayed(origin, later[..i]), IsPutAway(later[..i]), later[i]) {
      if i < |events| {
        assert later[..i] == events[..i];
      }
    }
  }

  /** A transaction has loaded what is stored, if the version still stands. */
  ghost predicate IsSound(s: State, t: Transaction) {
    && IsAllowed(t.copy, t.request) && IsComplete(t.copy.content) && IsComplete(t.written.content)
    && !s.stored.Missing?
    && (exists now :: t.written == Changed(t.copy, t.request, now))
    && t.added == Recorded(t.copy, t.written)
    && (s.stored.Present? ==> s.stored.row.version >= t.copy.version && (s.stored.row.version == t.copy.version ==> s.stored.row == t.copy))
  }

  ghost predicate Inv(s: State) {
    && (s.stored.Present? ==> Tells(s.origin, s.stored.row, s.stored.events))
    && (forall x | x in s.open :: IsSound(s, s.open[x]))
  }

  lemma WriteKeepsInv(s: State, x: nat)
    requires Inv(s) && x in s.open && Succeeds(s, x) && s.open[x].written != s.open[x].copy
    ensures Inv(AfterCommit(s, x))
  {
    var t := s.open[x];
    assert IsSound(s, t);
    var next := AfterCommit(s, x);
    if t.request != Erase {
      OneMoreEntry(s.origin, s.stored.row, s.stored.events, t.written);
    }
    forall y | y in next.open ensures IsSound(next, next.open[y]) {
      assert IsSound(s, s.open[y]);
    }
  }

  lemma CloseKeepsInv(s: State, x: nat)
    requires Inv(s)
    ensures Inv(Closed(s, x))
  {
    var next := Closed(s, x);
    forall y | y in next.open ensures IsSound(next, next.open[y]) {
      assert IsSound(s, s.open[y]);
    }
  }

  lemma LoadKeepsInv(s: State, x: nat, request: Request, now: Time)
    requires Inv(s)
    ensures Inv(AfterLoad(s, x, request, now))
  {
    var next := AfterLoad(s, x, request, now);
    forall y | y in next.open ensures IsSound(next, next.open[y]) {
      assert y in s.open ==> IsSound(s, s.open[y]);
    }
  }

  lemma StepKeepsInv(s: State, e: Event)
    requires Inv(s)
    ensures Inv(After(s, e))
  {
    match e {
      case Create(body) =>
        assert IsTrueHistory(body, []);
        forall x | x in s.open ensures IsSound(AfterCreate(s, body), s.open[x]) {
          assert IsSound(s, s.open[x]);
        }
      case Load(x, request, now) => LoadKeepsInv(s, x, request, now);
      case Commit(x) =>
        CloseKeepsInv(s, x);
        if x in s.open && Succeeds(s, x) {
          if s.open[x].written != s.open[x].copy {
            WriteKeepsInv(s, x);
          } else {
            EraseKeepsInv(s, x);
          }
        }
      case Rollback(x) => CloseKeepsInv(s, x);
    }
  }

  lemma EraseKeepsInv(s: State, x: nat)
    requires Inv(s)
    ensures Inv(Closed(s.(stored := if s.stored.Missing? then Missing else Erased), x))
  {
    var next := Closed(s.(stored := if s.stored.Missing? then Missing else Erased), x);
    forall y | y in next.open ensures IsSound(next, next.open[y]) {
      assert IsSound(s, s.open[y]);
    }
  }

  lemma {:induction false} RunKeepsInv(events: seq<Event>)
    ensures Inv(Run(events))
  {
    if events != [] {
      RunKeepsInv(events[..|events| - 1]);
      StepKeepsInv(Run(events[..|events| - 1]), events[|events| - 1]);
    }
  }

  /**
   In every run, whichever requests race, the version is one more than the number of entries,
   replaying their new values from the created row gives the row, putting their old values back
   gives the created row, and every entry says truly what it found and changed.
   */
  lemma HistoryTellsEverything(events: seq<Event>)
    requires Run(events).stored.Present?
    ensures var s := Run(events);
            && s.stored.row.version == 1 + |s.stored.events|
            && Replayed(s.origin, s.stored.events) == s.stored.row.content
            && Undone(s.stored.row.content, s.stored.events) == s.origin
            && (s.stored.row.archivedAt.Some? <==> IsPutAway(s.stored.events))
            && IsTrueHistory(s.origin, s.stored.events)
  {
    RunKeepsInv(events);
  }

  /** So a column holds what the last entry that names it says, and no committed change is lost under another's. */
  lemma {:induction false} LastEntryWins(origin: Content, events: seq<AuditEvent>, f: Column)
    requires f in origin
    ensures var c := Replayed(origin, events);
            && f in c
            && ((exists i | 0 <= i < |events| :: IsLastNaming(events, i, f) && c[f] == events[i].changes[f].became)
                || (c[f] == origin[f] && forall i | 0 <= i < |events| :: f !in events[i].changes))
  {
    if events != [] {
      var init := events[..|events| - 1];
      LastEntryWins(origin, init, f);
      if f in events[|events| - 1].changes {
        assert IsLastNaming(events, |events| - 1, f);
      } else if exists i | 0 <= i < |init| :: IsLastNaming(init, i, f) && Replayed(origin, init)[f] == init[i].changes[f].became {
        var i :| 0 <= i < |init| && IsLastNaming(init, i, f) && Replayed(origin, init)[f] == init[i].changes[f].became;
        assert IsLastNaming(events, i, f);
      }
    }
  }

  predicate IsLastNaming(events: seq<AuditEvent>, i: nat, f: Column) {
    i < |events| && f in events[i].changes && forall j | i < j < |events| :: f !in events[j].changes
  }

  /** Entries are only ever added, as long as the record is there. */
  lemma {:induction false} EntriesAreKept(events: seq<Event>, n: nat)
    requires n <= |events| && Run(events[..n]).stored.Present? && Run(events).stored.Present?
    ensures Run(events[..n]).stored.events <= Run(events).stored.events && Run(events[..n]).origin == Run(events).origin
    decreases |events|
  {
    if n == |events| {
      assert events[..n] == events;
    } else {
      var init := events[..|events| - 1];
      assert init[..n] == events[..n];
      PresenceIsKept(init, n);
      EntriesAreKept(init, n);
    }
  }

  /** A record that is gone stays gone, and one that is there has been there since it was created. */
  lemma {:induction false} PresenceIsKept(events: seq<Event>, n: nat)
    requires n <= |events| && Run(events[..n]).stored.Present?
    ensures !Run(events).stored.Missing?
    decreases |events|
  {
    if n == |events| {
      assert events[..n] == events;
    } else {
      assert events[..|events| - 1][..n] == events[..n];
      PresenceIsKept(events[..|events| - 1], n);
    }
  }

  /** A version number names one state of the record, whenever it is seen. */
  lemma VersionNamesTheRow(events: seq<Event>, n: nat)
    requires n <= |events| && Run(events[..n]).stored.Present? && Run(events).stored.Present?
    ensures var earlier := Run(events[..n]).stored; var later := Run(events).stored;
            && earlier.row.version <= later.row.version
            && (earlier.row.version == later.row.version ==>
                  && earlier.events == later.events && earlier.row.content == later.row.content
                  && earlier.row.archivedAt.Some? == later.row.archivedAt.Some?)
  {
    EntriesAreKept(events, n);
    HistoryTellsEverything(events[..n]);
    HistoryTellsEverything(events);
  }

  /**
   A PATCH that names a version succeeds exactly if it changes nothing, or nothing has been
   recorded since that version and it does not blank the name; then it adds one entry, and its
   values are in the row. Otherwise nothing is written.
   */
  lemma NamedVersionDecides(events: seq<Event>, x: nat)
    requires var s := Run(events); x in s.open && s.open[x].request.Patch? && s.open[x].request.version.Some?
    ensures var s := Run(events); var t := s.open[x]; var next := After(s, Commit(x)).stored;
            && Name in t.written.content
            && (Succeeds(s, x) <==>
                || t.written == t.copy
                || (s.stored.Present? && |s.stored.events| == t.request.version.value - 1 && t.written.content[Name].Some?))
            && (if Succeeds(s, x) && t.written != t.copy
                then next.Present? && next.row.content == s.stored.row.content + t.request.updates
                     && next.row.content.Keys == s.stored.row.content.Keys
                     && next.events == s.stored.events + [AuditEvent(Updated, Diff(s.stored.row.content, next.row.content))]
                else next == s.stored)
  {
    RunKeepsInv(events);
    var s := Run(events);
    var t := s.open[x];
    assert IsSound(s, t);
    DiffExactly(t.copy.content, t.written.content);
  }

  /** Whatever commits, either nothing is written or exactly one entry is, and it is the difference. */
  lemma EveryWriteIsRecorded(events: seq<Event>, x: nat)
    requires Run(events).stored.Present? && After(Run(events), Commit(x)).stored.Present?
    ensures var before := Run(events).stored; var after := After(Run(events), Commit(x)).stored;
            || after == before
            || (&& |after.events| == |before.events| + 1 && before.events <= after.events
                && after.row.version == before.row.version + 1
                && after.row.content.Keys == before.row.content.Keys
                && after.events[|before.events|].changes == Diff(before.row.content, after.row.content)
                && (after.events[|before.events|].action.Updated? <==> after.row.archivedAt == before.row.archivedAt))
  {
    RunKeepsInv(events);
    var s := Run(events);
    if x in s.open && Succeeds(s, x) && s.open[x].request != Erase && s.open[x].written != s.open[x].copy {
      var t := s.open[x];
      assert IsSound(s, t);
      DiffExactly(t.copy.content, t.written.content);
      OneMoreEntry(s.origin, s.stored.row, s.stored.events, t.written);
    }
  }

  // ---- The row in memory ----

  class Organization {
    var content: Content
    var archivedAt: Option<Time>
    var version: nat
    /** The entries added to the session, to be written with the row. */
    var added: seq<AuditEvent>

    ghost function Value(): Row
      reads this
    {
      Row(content, archivedAt, version)
    }

    constructor (row: Row)
      ensures Value() == row && added == []
    {
      content, archivedAt, version, added := row.content, row.archivedAt, row.version, [];
    }

    /** `record_update`: the difference since `before`, if there is one. */
    method RecordUpdate(before: Content)
      requires before.Keys == content.Keys
      modifies this`added
      ensures added == old(added) + if Diff(before, content) == map[] then [] else [AuditEvent(Updated, Diff(before, content))]
    {
      var changes: Changes := map[];
      var fields := before.Keys;
      while fields != {}
        invariant fields <= before.Keys
        invariant changes == map f | f in before && f !in fields && content[f] != before[f] :: Change(before[f], content[f])
        decreases |fields|
      {
        var f :| f in fields;
        fields := fields - {f};
        if content[f] != before[f] {
          changes := changes[f := Change(before[f], content[f])];
        }
      }
      assert changes == Diff(before, content);
      if changes != map[] {
        added := added + [AuditEvent(Updated, changes)];
      }
    }

    method Update(updates: Content)
      requires updates.Keys <= content.Keys && added == []
      modifies this
      ensures Value() == Changed(old(Value()), Patch(None, updates), 0)
      ensures content.Keys == old(content).Keys && added == Recorded(old(Value()), Value())
    {
      var before := content;
      var fields := updates.Keys;
      while fields != {}
        invariant fields <= updates.Keys && archivedAt == old(archivedAt) && version == old(version) && added == []
        invariant content.Keys == before.Keys
        invariant forall f | f in before :: content[f] == if f in updates && f !in fields then updates[f] else before[f]
        decreases |fields|
      {
        var f :| f in fields;
        fields := fields - {f};
        content := content[f := updates[f]];
      }
      assert content == before + updates;
      RecordUpdate(before);
    }

    method Archive(archived: bool, now: Time)
      requires added == []
      modifies this
      ensures Value() == Changed(old(Value()), Request.SetArchived(archived), now)
      ensures content == old(content) && added == Recorded(old(Value()), Value())
    {
      if archived != archivedAt.Some? {
        archivedAt := if archived then Some(now) else None;
        added := added + [AuditEvent(if archived then Archived else Restored, map[])];
      }
      assert Diff(content, content) == map[];
    }

    /** What the lead importer does to a live organization without a domain. */
    method Fill(domain: string)
      requires added == [] && Domain in content
      modifies this
      ensures Value() == Changed(old(Value()), FillDomain(domain), 0)
      ensures content.Keys == old(content).Keys && added == Recorded(old(Value()), Value())
    {
      var before := content;
      content := content[Domain := Some(domain)];
      RecordUpdate(before);
    }
  }
}
