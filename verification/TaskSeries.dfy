/**
 Repeating tasks (backend/app/routers/tasks.py): completing one creates the next. Requests run
 interleaved, each in its own transaction, and the version column (backend/app/audit.py) and row
 locks decide who wins.
 */
module TaskSeries {
  import opened Calendar
  import opened Fields
  import opened Options
  import opened Recurrence

  type Instant = m: Moment | IsMoment(m) witness Moment(Date(1, 1, 1), 0)

  /** A row of `tasks`; `content` stands for the fields that no rule reads. */
  datatype Task = Task(content: string, due: Option<Instant>, rule: Option<Rule>, interval: int, until: Option<Instant>,
                       done: bool, completedAt: Option<Instant>, parent: Option<nat>, archivedAt: Option<Instant>, version: nat)

  datatype Update = Update(version: Option<nat>, content: Field<string>, due: Field<Instant>, rule: Field<Rule>,
                           interval: Field<int>, until: Field<Instant>, done: Field<bool>)

  datatype Operation = Patch(update: Update) | SetArchived(archived: bool) | Erase

  /** Read only; with the conditional UPDATE issued, so that the row is locked; with the successor settled. */
  datatype Phase = Loaded | Flushed(written: Task) | Decided(written: Task, successor: Option<Task>)

  datatype Transaction = Transaction(task: nat, copy: Task, operation: Operation, phase: Phase)

  /** What is committed, the next fresh id, and the transactions under way. */
  datatype State = State(rows: map<nat, Task>, nextId: nat, open: map<nat, Transaction>)

  datatype Event =
    | Create(body: Task, now: Instant)
    | Load(x: nat, id: nat, operation: Operation)
    | Flush(x: nat, now: Instant)
    | Decide(x: nat, now: Instant)
    | Commit(x: nat)
    | Rollback(x: nat)

  // ---- One request ----

  /** `validate_recurrence` */
  predicate IsUsable(rule: Option<Rule>, until: Option<Instant>, due: Option<Instant>) {
    if rule.None? then until.None? else due.Some? && (until.Some? ==> !Before(until.value, due.value))
  }

  /** The checks that a request makes on the copy it loaded. */
  predicate IsAllowed(copy: Task, operation: Operation) {
    match operation
    case Patch(u) =>
      && copy.archivedAt.None?
      && (u.version.Some? ==> u.version.value == copy.version)
      && IsUsable(Merged(u.rule, copy.rule), Merged(u.until, copy.until), Merged(u.due, copy.due))
    case SetArchived(_) => true
    case Erase => copy.archivedAt.Some?
  }

  /** Columns that cannot be null are not sent as null: the database refuses it. */
  predicate IsStorable(operation: Operation) {
    operation.Patch? ==> !operation.update.content.Null? && !operation.update.interval.Null? && !operation.update.done.Null?
  }

  /** What a PATCH makes of a task. */
  function Patched(t: Task, u: Update, now: Instant): Task {
    var done := Kept(u.done, t.done);
    var completedAt := if done && !t.done then Some(now) else if t.done && !done then None else t.completedAt;
    t.(content := Kept(u.content, t.content), due := Merged(u.due, t.due), rule := Merged(u.rule, t.rule),
       interval := Kept(u.interval, t.interval), until := Merged(u.until, t.until), done := done, completedAt := completedAt)
  }

  /** What an operation makes of a task, but for its version. */
  function Changed(t: Task, operation: Operation, now: Instant): Task {
    match operation
    case Patch(u) => Patched(t, u, now)
    case SetArchived(archived) =>
      if archived == t.archivedAt.Some? then t else t.(archivedAt := if archived then Some(now) else None)
    case Erase => t
  }

  predicate HasChild(rows: map<nat, Task>, id: nat) { exists c | c in rows :: rows[c].parent == Some(id) }

  /** `_spawn_next_occurrence`, given whether there is a successor already. */
  function Successor(t: Task, id: nat, spawned: bool, now: Instant): Option<Option<Task>> {
    if t.due.None? || t.rule.None? || spawned then Some(None)
    else
      match NextDueDate(t.due.value, t.rule.value, t.interval, now, t.until)
      case Due(due) => Some(Some(t.(due := Some(due), done := false, completedAt := None, parent := Some(id), archivedAt := None, version := 1)))
      case SeriesOver => Some(None)
      case Failed(_) => None
  }

  // ---- The steps of all requests ----

  predicate HoldsLock(t: Transaction, id: nat) { !t.phase.Loaded? && t.task == id }

  predicate IsLocked(s: State, id: nat) { exists x | x in s.open :: HoldsLock(s.open[x], id) }

  function Closed(s: State, x: nat): State { s.(open := s.open - {x}) }

  function AfterCreate(s: State, task: Task, now: Instant): State {
    if !IsUsable(task.rule, task.until, task.due) then s
    else
      var row := task.(completedAt := if task.done then Some(now) else None, parent := None, archivedAt := None, version := 1);
      s.(rows := s.rows[s.nextId := row], nextId := s.nextId + 1)
  }

  function AfterLoad(s: State, x: nat, id: nat, operation: Operation): State {
    if x !in s.open && id in s.rows && IsAllowed(s.rows[id], operation)
    then s.(open := s.open[x := Transaction(id, s.rows[id], operation, Loaded)]) else s
  }

  /** `ON DELETE SET NULL` */
  function Orphaned(rows: map<nat, Task>, id: nat): map<nat, Task> {
    map c | c in rows && c != id :: if rows[c].parent == Some(id) then rows[c].(parent := None) else rows[c]
  }

  /** Erasing waits for its row and for the rows of the children. */
  predicate MayErase(s: State, id: nat) {
    !IsLocked(s, id) && forall c | c in s.rows && s.rows[c].parent == Some(id) :: !IsLocked(s, c)
  }

  /** `UPDATE ... WHERE id = :id AND version = :loaded`, naming only the changed columns; the same for DELETE. */
  function AfterFlush(s: State, x: nat, now: Instant): State {
    if !(x in s.open && s.open[x].phase.Loaded?) then s
    else
      var t := s.open[x];
      var written := Changed(t.copy, t.operation, now);
      if !IsStorable(t.operation) || (t.operation != Erase && written == t.copy) then Closed(s, x)
      else if t.operation == Erase && !MayErase(s, t.task) then s
      else if IsLocked(s, t.task) then s
      else if !(t.task in s.rows && s.rows[t.task].version == t.copy.version) then Closed(s, x)
      else if t.operation == Erase then Closed(s.(rows := Orphaned(s.rows, t.task)), x)
      else s.(open := s.open[x := t.(phase := Flushed(written.(parent := s.rows[t.task].parent, version := t.copy.version + 1)))])
  }

  /** A completion asks the committed rows for a successor, and settles on one if there is none. */
  function AfterDecide(s: State, x: nat, now: Instant): State {
    if !(x in s.open && s.open[x].phase.Flushed?) then s
    else
      var t := s.open[x];
      if !(t.phase.written.done && !t.copy.done) then s.(open := s.open[x := t.(phase := Decided(t.phase.written, None))])
      else
        match Successor(t.phase.written, t.task, HasChild(s.rows, t.task), now)
        case None => Closed(s, x)
        case Some(successor) => s.(open := s.open[x := t.(phase := Decided(t.phase.written, successor))])
  }

  function AfterCommit(s: State, x: nat): State {
    if !(x in s.open && s.open[x].phase.Decided?) then s
    else
      var t := s.open[x];
      var rows := s.rows[t.task := t.phase.written];
      match t.phase.successor
      case None => Closed(s.(rows := rows), x)
      case Some(successor) => Closed(s.(rows := rows[s.nextId := successor], nextId := s.nextId + 1), x)
  }

  function After(s: State, e: Event): State {
    match e
    case Create(task, now) => AfterCreate(s, task, now)
    case Load(x, id, operation) => AfterLoad(s, x, id, operation)
    case Flush(x, now) => AfterFlush(s, x, now)
    case Decide(x, now) => AfterDecide(s, x, now)
    case Commit(x) => AfterCommit(s, x)
    case Rollback(x) => Closed(s, x)
  }

  function Run(events: seq<Event>): State {
    if events == [] then State(map[], 0, map[]) else After(Run(events[..|events| - 1]), events[|events| - 1])
  }

  // ---- What holds in every run ----

  /** Every parent is there and older than its child; nobody has two children. */
  ghost predicate IsForest(s: State) { ParentsAreOlder(s) && HasSingleChildren(s.rows) }

  ghost predicate ParentsAreOlder(s: State) {
    && (forall id | id in s.rows :: id < s.nextId)
    && (forall id | id in s.rows && s.rows[id].parent.Some? :: s.rows[id].parent.value in s.rows && s.rows[id].parent.value < id)
  }

  ghost predicate HasSingleChildren(rows: map<nat, Task>) {
    forall a, b | a in rows && b in rows && rows[a].parent.Some? && rows[a].parent == rows[b].parent :: a == b
  }

  /** A copy whose version is still the row's is still what the row says; the parent alone can be gone. */
  ghost predicate IsCurrent(s: State, t: Transaction) {
    && t.task < s.nextId && IsAllowed(t.copy, t.operation)
    && (t.task in s.rows ==>
          && s.rows[t.task].version >= t.copy.version
          && (s.rows[t.task].version == t.copy.version ==> s.rows[t.task].(parent := None) == t.copy.(parent := None)))
  }

  ghost predicate HoldsItsRow(s: State, t: Transaction) {
    !t.phase.Loaded? ==>
      && t.task in s.rows && s.rows[t.task].version == t.copy.version
      && t.operation != Erase
      && t.phase.written.parent == s.rows[t.task].parent && t.phase.written.version == t.copy.version + 1
      && (t.phase.written.done && !t.copy.done ==> t.copy.archivedAt.None? && t.phase.written.archivedAt.None?)
      && IsDated(t.phase.written)
  }

  /** The successor of a completion: the first of its parent, of the same kind, open, and due strictly later. */
  ghost predicate Follows(parent: Task, id: nat, child: Task) {
    && child.parent == Some(id) && !child.done && child.completedAt.None? && child.archivedAt.None?
    && parent.due.Some? && child.due.Some? && Before(parent.due.value, child.due.value)
    && child.rule == parent.rule && child.interval == parent.interval && child.until == parent.until && child.content == parent.content
    && (parent.until.Some? ==> !Before(parent.until.value, child.due.value))
  }

  ghost predicate HasFirstSuccessor(s: State, t: Transaction) {
    t.phase.Decided? && t.phase.successor.Some? ==>
      && !HasChild(s.rows, t.task) && !t.copy.done && t.phase.written.done && t.phase.written.archivedAt.None?
      && Follows(t.phase.written, t.task, t.phase.successor.value)
  }

  ghost predicate IsSound(s: State, t: Transaction) {
    IsCurrent(s, t) && HoldsItsRow(s, t) && HasFirstSuccessor(s, t)
  }

  ghost predicate AllSound(s: State) { forall x | x in s.open :: IsSound(s, s.open[x]) }

  ghost predicate IsDated(t: Task) { t.done <==> t.completedAt.Some? }

  ghost predicate AllDated(s: State) { forall id | id in s.rows :: IsDated(s.rows[id]) }

  ghost predicate OneLockEach(s: State) {
    forall x, y | x in s.open && y in s.open && HoldsLock(s.open[x], s.open[x].task) && HoldsLock(s.open[y], s.open[x].task) :: x == y
  }

  ghost predicate Inv(s: State) { IsForest(s) && AllDated(s) && AllSound(s) && OneLockEach(s) }

  lemma CreateKeepsInv(s: State, body: Task, now: Instant)
    requires Inv(s)
    ensures Inv(AfterCreate(s, body, now))
  {
    var next := AfterCreate(s, body, now);
    forall x | x in next.open ensures IsSound(next, next.open[x]) {
      assert IsSound(s, s.open[x]);
    }
  }

  lemma LoadKeepsInv(s: State, x: nat, id: nat, operation: Operation)
    requires Inv(s)
    ensures Inv(AfterLoad(s, x, id, operation))
  {
    var next := AfterLoad(s, x, id, operation);
    forall y | y in next.open ensures IsSound(next, next.open[y]) {
      assert y in s.open ==> IsSound(s, s.open[y]);
    }
  }

  lemma CloseKeepsInv(s: State, x: nat)
    requires Inv(s)
    ensures Inv(Closed(s, x))
  {
    var next := Closed(s, x);
    forall y | y in next.open ensures IsSound(next, next.open[y]) {
      assert IsSound(s, s.open[y]);
    }
  }

  lemma EraseKeepsForest(s: State, id: nat)
    requires IsForest(s) && AllDated(s) && id in s.rows
    ensures var next := s.(rows := Orphaned(s.rows, id)); IsForest(next) && AllDated(next)
  {
    var rows := Orphaned(s.rows, id);
    forall c | c in rows ensures IsDated(rows[c]) {
      assert IsDated(s.rows[c]);
    }
    forall c | c in rows && rows[c].parent.Some? ensures rows[c].parent == s.rows[c].parent {
    }
  }

  lemma EraseKeepsOthers(s: State, id: nat, t: Transaction)
    requires IsForest(s) && id in s.rows && IsSound(s, t)
    requires !HoldsLock(t, id)
    requires forall c | c in s.rows && s.rows[c].parent == Some(id) :: !HoldsLock(t, c)
    ensures IsSound(s.(rows := Orphaned(s.rows, id)), t)
  {
    var rows := Orphaned(s.rows, id);
    assert t.task in rows ==> rows[t.task].(parent := None) == s.rows[t.task].(parent := None);
    assert HasChild(rows, t.task) ==> HasChild(s.rows, t.task);
  }

  lemma EraseKeepsInv(s: State, x: nat)
    requires Inv(s) && x in s.open && s.open[x].phase.Loaded? && s.open[x].task in s.rows && MayErase(s, s.open[x].task)
    ensures Inv(s.(rows := Orphaned(s.rows, s.open[x].task)))
  {
    var id := s.open[x].task;
    var next := s.(rows := Orphaned(s.rows, id));
    EraseKeepsForest(s, id);
    forall y | y in next.open ensures IsSound(next, next.open[y]) {
      assert IsSound(s, s.open[y]);
      EraseKeepsOthers(s, id, s.open[y]);
    }
  }

  lemma FlushIsSound(s: State, t: Transaction, now: Instant)
    requires AllDated(s) && IsCurrent(s, t) && t.phase.Loaded? && t.operation != Erase && IsAllowed(t.copy, t.operation)
    requires t.task in s.rows && s.rows[t.task].version == t.copy.version
    ensures var written := Changed(t.copy, t.operation, now).(parent := s.rows[t.task].parent, version := t.copy.version + 1);
            IsSound(s, t.(phase := Flushed(written)))
  {
    assert IsDated(s.rows[t.task]);
  }

  lemma ErasingKeepsInv(s: State, x: nat)
    requires Inv(s) && x in s.open && s.open[x].phase.Loaded? && s.open[x].task in s.rows && MayErase(s, s.open[x].task)
    ensures Inv(Closed(s.(rows := Orphaned(s.rows, s.open[x].task)), x))
  {
    EraseKeepsInv(s, x);
    CloseKeepsInv(s.(rows := Orphaned(s.rows, s.open[x].task)), x);
  }

  lemma LockingKeepsInv(s: State, x: nat, t: Transaction)
    requires Inv(s) && x in s.open && IsSound(s, t) && t.task == s.open[x].task && !IsLocked(s, t.task)
    ensures Inv(s.(open := s.open[x := t]))
  {
    var next := s.(open := s.open[x := t]);
    forall y | y in next.open ensures IsSound(next, next.open[y]) {
      assert y in s.open && IsSound(s, s.open[y]);
    }
    forall y, z | y in next.open && z in next.open && HoldsLock(next.open[y], next.open[y].task) && HoldsLock(next.open[z], next.open[y].task)
      ensures y == z
    {
      assert y != x ==> HoldsLock(s.open[y], s.open[y].task);
      assert z != x ==> HoldsLock(s.open[z], next.open[y].task);
    }
  }

  /** The transaction may go on with its write. */
  ghost predicate Matches(s: State, x: nat) {
    && x in s.open && s.open[x].phase.Loaded? && s.open[x].task in s.rows
    && s.rows[s.open[x].task].version == s.open[x].copy.version && !IsLocked(s, s.open[x].task)
  }

  function Writing(s: State, t: Transaction, now: Instant): Transaction
    requires t.task in s.rows
  {
    t.(phase := Flushed(Changed(t.copy, t.operation, now).(parent := s.rows[t.task].parent, version := t.copy.version + 1)))
  }

  /** A flush does nothing, gives up, erases or writes. */
  lemma FlushOutcomes(s: State, x: nat, now: Instant)
    ensures var next := AfterFlush(s, x, now);
            || next == s || next == Closed(s, x)
            || (Matches(s, x) && s.open[x].operation == Erase && MayErase(s, s.open[x].task)
                && next == Closed(s.(rows := Orphaned(s.rows, s.open[x].task)), x))
            || (Matches(s, x) && s.open[x].operation != Erase
                && next == s.(open := s.open[x := Writing(s, s.open[x], now)]))
  {
  }

  lemma WritingKeepsInv(s: State, x: nat, now: Instant)
    requires Inv(s) && Matches(s, x) && s.open[x].operation != Erase
    ensures Inv(s.(open := s.open[x := Writing(s, s.open[x], now)]))
  {
    assert IsSound(s, s.open[x]);
    FlushIsSound(s, s.open[x], now);
    LockingKeepsInv(s, x, Writing(s, s.open[x], now));
  }

  lemma FlushKeepsInv(s: State, x: nat, now: Instant)
    requires Inv(s)
    ensures Inv(AfterFlush(s, x, now))
  {
    FlushOutcomes(s, x, now);
    CloseKeepsInv(s, x);
    if Matches(s, x) {
      if s.open[x].operation != Erase {
        WritingKeepsInv(s, x, now);
      } else if MayErase(s, s.open[x].task) {
        ErasingKeepsInv(s, x);
      }
    }
  }

  /** What `_spawn_next_occurrence` builds follows the task that was completed. */
  lemma SuccessorFollows(t: Task, id: nat, spawned: bool, now: Instant)
    requires Successor(t, id, spawned, now).Some? && Successor(t, id, spawned, now).value.Some?
    ensures !spawned && Follows(t, id, Successor(t, id, spawned, now).value.value)
  {
    NextInstance(t.due.value, t.rule.value, t.interval, now, t.until);
  }

  lemma SettlingIsSound(s: State, t: Transaction, now: Instant)
    requires IsSound(s, t) && t.phase.Flushed? && t.phase.written.done && !t.copy.done
    requires Successor(t.phase.written, t.task, HasChild(s.rows, t.task), now).Some?
    ensures var successor := Successor(t.phase.written, t.task, HasChild(s.rows, t.task), now).value;
            IsSound(s, t.(phase := Decided(t.phase.written, successor)))
  {
    var spawned := HasChild(s.rows, t.task);
    if Successor(t.phase.written, t.task, spawned, now).value.Some? {
      SuccessorFollows(t.phase.written, t.task, spawned, now);
    }
  }

  lemma AdvancingKeepsInv(s: State, x: nat, t: Transaction)
    requires Inv(s) && x in s.open && IsSound(s, t) && HoldsLock(s.open[x], t.task) && t.phase.Decided?
    ensures Inv(s.(open := s.open[x := t]))
  {
    var next := s.(open := s.open[x := t]);
    forall y | y in next.open ensures IsSound(next, next.open[y]) {
      assert y in s.open && IsSound(s, s.open[y]);
    }
  }

  lemma DecideKeepsInv(s: State, x: nat, now: Instant)
    requires Inv(s)
    ensures Inv(AfterDecide(s, x, now))
  {
    CloseKeepsInv(s, x);
    if x in s.open && s.open[x].phase.Flushed? {
      var t := s.open[x];
      assert IsSound(s, t);
      if !(t.phase.written.done && !t.copy.done) {
        AdvancingKeepsInv(s, x, t.(phase := Decided(t.phase.written, None)));
      } else if Successor(t.phase.written, t.task, HasChild(s.rows, t.task), now).Some? {
        SettlingIsSound(s, t, now);
        var successor := Successor(t.phase.written, t.task, HasChild(s.rows, t.task), now).value;
        AdvancingKeepsInv(s, x, t.(phase := Decided(t.phase.written, successor)));
      }
    }
  }

  /** The rows after a commit: one rewritten, at most one added. */
  function Committed(s: State, t: Transaction): State
    requires t.phase.Decided?
  {
    var rows := s.rows[t.task := t.phase.written];
    if t.phase.successor.None? then s.(rows := rows)
    else s.(rows := rows[s.nextId := t.phase.successor.value], nextId := s.nextId + 1)
  }

  lemma CommitKeepsForest(s: State, t: Transaction)
    requires IsForest(s) && AllDated(s) && IsSound(s, t) && t.phase.Decided?
    ensures IsForest(Committed(s, t)) && AllDated(Committed(s, t))
  {
    CommitKeepsDates(s, t);
    CommitKeepsParents(s, t);
    CommitKeepsSingleChildren(s, t);
  }

  lemma CommitKeepsParents(s: State, t: Transaction)
    requires ParentsAreOlder(s) && IsSound(s, t) && t.phase.Decided?
    ensures ParentsAreOlder(Committed(s, t))
  {
  }

  lemma CommitKeepsDates(s: State, t: Transaction)
    requires AllDated(s) && IsSound(s, t) && t.phase.Decided?
    ensures AllDated(Committed(s, t))
  {
    var next := Committed(s, t);
    forall c | c in next.rows ensures IsDated(next.rows[c]) {
      assert c in s.rows ==> IsDated(s.rows[c]);
    }
  }

  lemma CommitKeepsSingleChildren(s: State, t: Transaction)
    requires IsForest(s) && IsSound(s, t) && t.phase.Decided?
    ensures HasSingleChildren(Committed(s, t).rows)
  {
    var next := Committed(s, t);
    forall a, b | a in next.rows && b in next.rows && next.rows[a].parent.Some? && next.rows[a].parent == next.rows[b].parent
      ensures a == b
    {
      assert a in s.rows ==> next.rows[a].parent == s.rows[a].parent;
      assert b in s.rows ==> next.rows[b].parent == s.rows[b].parent;
    }
  }

  lemma CommitKeepsOthers(s: State, t: Transaction, other: Transaction)
    requires IsForest(s) && IsSound(s, t) && t.phase.Decided? && IsSound(s, other) && !HoldsLock(other, t.task)
    ensures IsSound(Committed(s, t), other)
  {
    var next := Committed(s, t);
    if HasChild(next.rows, other.task) && other.task != t.task {
      var c :| c in next.rows && next.rows[c].parent == Some(other.task);
      assert c in s.rows && s.rows[c].parent == Some(other.task);
    }
  }

  lemma CommitKeepsInv(s: State, x: nat)
    requires Inv(s)
    ensures Inv(AfterCommit(s, x))
  {
    if x in s.open && s.open[x].phase.Decided? {
      var t := s.open[x];
      assert IsSound(s, t) && HoldsLock(t, t.task);
      CommitKeepsForest(s, t);
      var next := AfterCommit(s, x);
      assert next == Closed(Committed(s, t), x);
      forall y | y in next.open ensures IsSound(next, next.open[y]) {
        assert IsSound(s, s.open[y]) && !HoldsLock(s.open[y], t.task);
        CommitKeepsOthers(s, t, s.open[y]);
      }
    }
  }

  lemma StepKeepsInv(s: State, e: Event)
    requires Inv(s)
    ensures Inv(After(s, e))
  {
    match e {
      case Create(body, now) => CreateKeepsInv(s, body, now);
      case Load(x, id, operation) => LoadKeepsInv(s, x, id, operation);
      case Flush(x, now) => FlushKeepsInv(s, x, now);
      case Decide(x, now) => DecideKeepsInv(s, x, now);
      case Commit(x) => CommitKeepsInv(s, x);
      case Rollback(x) => CloseKeepsInv(s, x);
    }
  }

  lemma {:induction false} RunKeepsInv(events: seq<Event>)
    ensures Inv(Run(events))
  {
    if events != [] {
      RunKeepsInv(events[..|events| - 1]);
      StepKeepsInv(Run(events[..|events| - 1]), events[|events| - 1]);
    }
  }

  // ---- What a reader may rely on ----

  /** In every run, however the requests interleave, no task has two successors. */
  lemma SeriesNeverForks(events: seq<Event>, a: nat, b: nat)
    requires var rows := Run(events).rows;
             a in rows && b in rows && rows[a].parent.Some? && rows[a].parent == rows[b].parent
    ensures a == b
  {
    RunKeepsInv(events);
  }

  /** The task `n` links back along the series. */
  function Ancestor(rows: map<nat, Task>, id: nat, n: nat): Option<nat> {
    if n == 0 then Some(id)
    else
      match Ancestor(rows, id, n - 1)
      case None => None
      case Some(a) => if a in rows then rows[a].parent else None
  }

  lemma {:induction false} AncestorsAreOlder(s: State, id: nat, n: nat)
    requires IsForest(s) && n > 0
    ensures Ancestor(s.rows, id, n).Some? ==> Ancestor(s.rows, id, n).value < id && Ancestor(s.rows, id, n).value in s.rows
  {
    if n == 1 {
      assert Ancestor(s.rows, id, 0) == Some(id);
    } else {
      AncestorsAreOlder(s, id, n - 1);
    }
  }

  /** Following the links back never comes round to the same task. */
  lemma SeriesIsAcyclic(events: seq<Event>, id: nat, n: nat)
    requires n > 0
    ensures Ancestor(Run(events).rows, id, n) != Some(id)
  {
    RunKeepsInv(events);
    AncestorsAreOlder(Run(events), id, n);
  }

  /**
   A task with a parent comes into being only in the step that turns that parent from open to
   done, and only if it was not archived; it is open, of the same kind, and due strictly later.
   */
  lemma SuccessorsAreBornOfCompletions(events: seq<Event>, e: Event, child: nat)
    requires var s := Run(events); var next := After(s, e);
             child in next.rows && child !in s.rows && next.rows[child].parent.Some?
    ensures var s := Run(events); var next := After(s, e);
            var parent := next.rows[child].parent.value;
            && e.Commit? && parent in s.rows && !s.rows[parent].done && s.rows[parent].archivedAt.None?
            && parent in next.rows && next.rows[parent].done && Follows(next.rows[parent], parent, next.rows[child])
            && !HasChild(s.rows, parent) && next.rows.Keys == s.rows.Keys + {child}
  {
    var s := Run(events);
    RunKeepsInv(events);
    match e {
      case Commit(x) => assert IsSound(s, s.open[x]);
      case _ =>
    }
  }

  /** A done task says when it was done, an open one does not. */
  lemma DoneIsDated(events: seq<Event>, id: nat)
    requires id in Run(events).rows
    ensures Run(events).rows[id].done <==> Run(events).rows[id].completedAt.Some?
  {
    RunKeepsInv(events);
    assert IsDated(Run(events).rows[id]);
  }

  // ---- The requests themselves ----

  class TaskService {
    var rows: map<nat, Task>
    var nextId: nat
    var open: map<nat, Transaction>

    ghost function Value(): State
      reads this
    {
      State(rows, nextId, open)
    }

    constructor ()
      ensures Value() == Run([])
    {
      rows, nextId, open := map[], 0, map[];
    }

    method CreateTask(body: Task, now: Instant)
      modifies this
      ensures Value() == AfterCreate(old(Value()), body, now)
    {
      if !IsUsable(body.rule, body.until, body.due) {
        return;
      }
      var task := body.(completedAt := None, parent := None, archivedAt := None, version := 1);
      if task.done {
        task := task.(completedAt := Some(now));
      }
      rows, nextId := rows[nextId := task], nextId + 1;
    }

    method LoadTask(x: nat, id: nat, operation: Operation)
      modifies this
      ensures Value() == AfterLoad(old(Value()), x, id, operation)
    {
      if x !in open && id in rows && IsAllowed(rows[id], operation) {
        open := open[x := Transaction(id, rows[id], operation, Loaded)];
      }
    }

    /** The body of `update_task`, of `set_archived` or of `delete_task`, up to the UPDATE or DELETE it issues. */
    method FlushTask(x: nat, now: Instant)
      modifies this
      ensures Value() == AfterFlush(old(Value()), x, now)
    {
      if !(x in open && open[x].phase.Loaded?) {
        return;
      }
      var t := open[x];
      var row := t.copy;
      match t.operation {
        case Patch(u) =>
          if u.content.Null? || u.interval.Null? || u.done.Null? {
            open := open - {x};
            return;
          }
          var wasDone := row.done;
          row := row.(content := Kept(u.content, row.content), due := Merged(u.due, row.due), rule := Merged(u.rule, row.rule));
          row := row.(interval := Kept(u.interval, row.interval), until := Merged(u.until, row.until), done := Kept(u.done, row.done));
          if row.done && !wasDone {
            row := row.(completedAt := Some(now));
          } else if wasDone && !row.done {
            row := row.(completedAt := None);
          }
        case SetArchived(archived) =>
          if archived != row.archivedAt.Some? {
            row := row.(archivedAt := if archived then Some(now) else None);
          }
        case Erase =>
      }
      if t.operation != Erase && row == t.copy {
        open := open - {x};
        return;
      }
      var isLocked := exists y | y in open :: HoldsLock(open[y], t.task);
      var isChildLocked := exists c | c in rows && rows[c].parent == Some(t.task) :: exists y | y in open :: HoldsLock(open[y], c);
      if isLocked || (t.operation == Erase && isChildLocked) {
        return;
      }
      if !(t.task in rows && rows[t.task].version == t.copy.version) {
        open := open - {x};
      } else if t.operation == Erase {
        rows := map c | c in rows && c != t.task :: if rows[c].parent == Some(t.task) then rows[c].(parent := None) else rows[c];
        open := open - {x};
      } else {
        open := open[x := t.(phase := Flushed(row.(parent := rows[t.task].parent, version := t.copy.version + 1)))];
      }
    }

    method SpawnNextOccurrence(x: nat, now: Instant)
      modifies this
      ensures Value() == AfterDecide(old(Value()), x, now)
    {
      if !(x in open && open[x].phase.Flushed?) {
        return;
      }
      var t := open[x];
      var task := t.phase.written;
      var successor := None;
      if task.done && !t.copy.done && task.due.Some? && task.rule.Some? {
        var alreadySpawned := exists c | c in rows :: rows[c].parent == Some(t.task);
        if !alreadySpawned {
          match NextDueDate(task.due.value, task.rule.value, task.interval, now, task.until) {
            case Failed(_) =>
              open := open - {x};
              return;
            case SeriesOver =>
            case Due(due) =>
              successor := Some(Task(task.content, Some(due), task.rule, task.interval, task.until, false, None, Some(t.task), None, 1));
          }
        }
      }
      open := open[x := t.(phase := Decided(task, successor))];
    }

    method CommitTask(x: nat)
      modifies this
      ensures Value() == AfterCommit(old(Value()), x)
    {
      if !(x in open && open[x].phase.Decided?) {
        return;
      }
      var t := open[x];
      rows := rows[t.task := t.phase.written];
      if t.phase.successor.Some? {
        rows, nextId := rows[nextId := t.phase.successor.value], nextId + 1;
      }
      open := open - {x};
    }
  }
}
