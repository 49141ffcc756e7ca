/**
 The per-account login backoff and the reset-mail cooldown (backend/app/auth/throttle.py): one
 row per account, deleted by a sweep once it has run out, that nobody may be able to notice.
 */
module Throttle {
  import opened Clock
  import opened Options

  /** The settings, in seconds: free failures, longest lock, decay window, mail cooldown. */
  datatype Config = Config(free: nat, cap: nat, decay: nat, cooldown: nat)

  datatype Kind = Login | ResetMail

  /** A kind under its MAC with the normalised address: an injective key. */
  datatype Key = Key(kind: Kind, address: string)

  datatype Row = Row(count: nat, lockedUntil: Option<Time>, lastEvent: Time)

  type Table = map<Key, Row>

  function Min(a: int, b: int): int { if a <= b then a else b }

  function Pow2(n: nat): (r: nat)
    ensures r >= 1
  {
    if n == 0 then 1 else 2 * Pow2(n - 1)
  }

  /** `n.bit_length()` */
  function BitLength(n: nat): nat {
    if n == 0 then 0 else 1 + BitLength(n / 2)
  }

  /** `lock_seconds` */
  function LockSeconds(c: Config, failures: int): (seconds: nat) {
    var over := failures - c.free;
    if over <= 0 then 0 else Min(Pow2(Min(over, BitLength(c.cap))), c.cap)
  }

  /** `math.ceil(span.total_seconds())` */
  function CeilSeconds(span: Time): int { (span + SECOND - 1) / SECOND }

  predicate IsLocked(row: Row, now: Time) { row.lockedUntil.Some? && row.lockedUntil.value > now }

  /** The row has run out: nothing recent, no lock. */
  predicate IsStale(c: Config, row: Row, now: Time) {
    row.lastEvent <= now - c.decay * SECOND && !IsLocked(row, now)
  }

  /** The row an attempt finds, created if there is none. */
  function Found(t: Table, key: Key, now: Time): Row {
    if key in t then t[key] else Row(0, None, now)
  }

  /** The row after an attempt that may go ahead. */
  function Counted(c: Config, row: Row, now: Time): Row {
    var failures := if row.lastEvent <= now - c.decay * SECOND then 1 else row.count + 1;
    var seconds := LockSeconds(c, failures);
    Row(failures, if seconds > 0 then Some(now + seconds * SECOND) else None, now)
  }

  /** Without the stale rows among `reach`; rows another request holds are not reached. */
  function Swept(c: Config, t: Table, key: Key, now: Time, reach: set<Key>): Table {
    map k | k in t && !(k != key && k in reach && IsStale(c, t[k], now)) :: t[k]
  }

  function AfterClaim(c: Config, t: Table, address: string, now: Time, reach: set<Key>): Table {
    var key := Key(Login, address);
    var row := Found(t, key, now);
    if IsLocked(row, now) then t[key := row] else Swept(c, t[key := Counted(c, row, now)], key, now, reach)
  }

  /** How many seconds remain, if the account is locked. */
  function Refusal(t: Table, address: string, now: Time): Option<int> {
    var row := Found(t, Key(Login, address), now);
    if IsLocked(row, now) then Some(CeilSeconds(row.lockedUntil.value - now)) else None
  }

  predicate MayMail(t: Table, address: string, now: Time) {
    var key := Key(ResetMail, address);
    key in t ==> !IsLocked(t[key], now)
  }

  function AfterMail(c: Config, t: Table, address: string, now: Time): Table {
    var key := Key(ResetMail, address);
    if MayMail(t, address, now) then t[key := Row(Found(t, key, now).count, Some(now + c.cooldown * SECOND), now)] else t
  }

  class AuthThrottle {
    const config: Config
    var rows: Table

    constructor (config: Config)
      ensures this.config == config && rows == map[]
    {
      this.config := config;
      rows := map[];
    }

    method ClaimLoginAttempt(address: string, now: Time, reach: set<Key>) returns (remaining: Option<int>)
      modifies this
      ensures rows == AfterClaim(config, old(rows), address, now, reach)
      ensures remaining == Refusal(old(rows), address, now)
    {
      var cutoff := now - config.decay * SECOND;
      var key := Key(Login, address);
      if key !in rows {
        rows := rows[key := Row(0, None, now)];
      }
      var Row(count, lockedUntil, lastEvent) := rows[key];
      if lockedUntil.Some? && lockedUntil.value > now {
        return Some(CeilSeconds(lockedUntil.value - now));
      }
      var failures := if lastEvent <= cutoff then 1 else count + 1;
      var seconds := LockSeconds(config, failures);
      rows := rows[key := Row(failures, if seconds > 0 then Some(now + seconds * SECOND) else None, now)];
      rows := map k | k in rows && !(k != key && k in reach && IsStale(config, rows[k], now)) :: rows[k];
      remaining := None;
    }

    method ClearLogin(address: string) returns (any: bool)
      modifies this
      ensures rows == old(rows) - {Key(Login, address)} && any == (Key(Login, address) in old(rows))
    {
      any := Key(Login, address) in rows;
      rows := rows - {Key(Login, address)};
    }

    method ClaimResetMail(address: string, now: Time) returns (claimed: bool)
      modifies this
      ensures rows == AfterMail(config, old(rows), address, now) && claimed == MayMail(old(rows), address, now)
    {
      var key := Key(ResetMail, address);
      var until := Some(now + config.cooldown * SECOND);
      if key !in rows {
        rows := rows[key := Row(0, until, now)];
        return true;
      }
      claimed := rows[key].lockedUntil.None? || rows[key].lockedUntil.value <= now;
      if claimed {
        rows := rows[key := rows[key].(lockedUntil := until, lastEvent := now)];
      }
    }

    method ClearResetMail(address: string) returns (any: bool)
      modifies this
      ensures rows == old(rows) - {Key(ResetMail, address)} && any == (Key(ResetMail, address) in old(rows))
    {
      any := Key(ResetMail, address) in rows;
      rows := rows - {Key(ResetMail, address)};
    }
  }

  // ---- The lock doubles, up to the cap ----

  lemma {:induction false} Pow2Monotone(a: nat, b: nat)
    requires a <= b
    ensures Pow2(a) <= Pow2(b)
  {
    if a < b {
      Pow2Monotone(a, b - 1);
    }
  }

  lemma {:induction false} BitLengthBounds(n: nat)
    ensures n < Pow2(BitLength(n))
  {
    if n > 0 {
      BitLengthBounds(n / 2);
    }
  }

  /** Capping the exponent never changes the lock: it is the doubling, capped. */
  lemma LockIsCappedDoubling(c: Config, failures: int)
    ensures LockSeconds(c, failures) == if failures <= c.free then 0 else Min(Pow2(failures - c.free), c.cap)
  {
    var over := failures - c.free;
    if over > 0 && over > BitLength(c.cap) {
      BitLengthBounds(c.cap);
      Pow2Monotone(BitLength(c.cap), over);
    }
  }

  lemma LockIsMonotone(c: Config, a: int, b: int)
    requires a <= b
    ensures LockSeconds(c, a) <= LockSeconds(c, b)
  {
    LockIsCappedDoubling(c, a);
    LockIsCappedDoubling(c, b);
    if a > c.free {
      Pow2Monotone(a - c.free, b - c.free);
    }
  }

  /** Waiting the seconds that are named is enough, and one second less is not. */
  lemma WaitingLiftsTheLock(t: Table, address: string, now: Time)
    requires Refusal(t, address, now).Some?
    ensures var seconds := Refusal(t, address, now).value;
            && seconds >= 1
            && Refusal(t, address, now + seconds * SECOND) == None
            && Refusal(t, address, now + (seconds - 1) * SECOND).Some?
  {
  }

  // ---- Runs ----

  datatype Event =
    | Attempt(address: string, reach: set<Key>)
    | Clear(address: string)
    | Mail(address: string)
    | ClearMail(address: string)

  datatype Outcome = Admitted | Refused(seconds: int) | Mailed | NotMailed | Cleared(any: bool)

  datatype Timed = Timed(at: Time, event: Event)

  ghost predicate InOrder(run: seq<Timed>) {
    forall i, j | 0 <= i < j < |run| :: run[i].at <= run[j].at
  }

  function Apply(c: Config, t: Table, e: Timed): Table {
    match e.event
    case Attempt(address, reach) => AfterClaim(c, t, address, e.at, reach)
    case Clear(address) => t - {Key(Login, address)}
    case Mail(address) => AfterMail(c, t, address, e.at)
    case ClearMail(address) => t - {Key(ResetMail, address)}
  }

  function Result(t: Table, e: Timed): Outcome {
    match e.event
    case Attempt(address, _) =>
      (match Refusal(t, address, e.at)
       case None => Admitted
       case Some(seconds) => Refused(seconds))
    case Clear(address) => Cleared(Key(Login, address) in t)
    case Mail(address) => if MayMail(t, address, e.at) then Mailed else NotMailed
    case ClearMail(address) => Cleared(Key(ResetMail, address) in t)
  }

  function After(c: Config, run: seq<Timed>): Table {
    if run == [] then map[] else Apply(c, After(c, run[..|run| - 1]), run[|run| - 1])
  }

  function Results(c: Config, run: seq<Timed>): (r: seq<Outcome>)
    ensures |r| == |run|
  {
    if run == [] then []
    else
      var n := |run| - 1;
      Results(c, run[..n]) + [Result(After(c, run[..n]), run[n])]
  }

  // ---- The sweep is invisible ----

  function Unswept(e: Event): Event {
    if e.Attempt? then Attempt(e.address, {}) else e
  }

  predicate IsClear(e: Event) { e.Clear? || e.ClearMail? }

  /** The same run on a table whose rows are never swept. */
  function UnsweptRun(run: seq<Timed>): (r: seq<Timed>)
    ensures |r| == |run| && forall i | 0 <= i < |run| :: r[i] == run[i].(event := Unswept(run[i].event))
  {
    seq(|run|, i requires 0 <= i < |run| => run[i].(event := Unswept(run[i].event)))
  }

  /** The tables differ at most by rows that have run out; a mail row counts nothing. */
  ghost predicate Agree(c: Config, swept: Table, full: Table, now: Time) {
    && (forall k | k in swept :: k in full && full[k] == swept[k])
    && (forall k | k in full && k !in swept :: IsStale(c, full[k], now))
    && (forall k | k in full && k.kind.ResetMail? :: full[k].count == 0)
  }

  lemma StaleStaysStale(c: Config, row: Row, now: Time, later: Time)
    requires IsStale(c, row, now) && now <= later
    ensures IsStale(c, row, later)
  {
  }

  lemma ClaimKeepsAgreement(c: Config, swept: Table, full: Table, address: string, now: Time, reach: set<Key>)
    requires Agree(c, swept, full, now)
    ensures Agree(c, AfterClaim(c, swept, address, now, reach), AfterClaim(c, full, address, now, {}), now)
    ensures Refusal(swept, address, now) == Refusal(full, address, now)
  {
    var key := Key(Login, address);
    var a, b := AfterClaim(c, swept, address, now, reach), AfterClaim(c, full, address, now, {});
    if key in full && key !in swept {
      assert IsStale(c, full[key], now);
    }
    assert Counted(c, Found(swept, key, now), now) == Counted(c, Found(full, key, now), now)
           || IsLocked(Found(full, key, now), now);
    if !IsLocked(Found(full, key, now), now) {
      assert b == full[key := Counted(c, Found(full, key, now), now)];
      forall k | k in b && k !in a ensures IsStale(c, b[k], now) {
        assert k != key;
      }
    }
  }

  lemma ApplyKeepsAgreement(c: Config, swept: Table, full: Table, e: Timed)
    requires Agree(c, swept, full, e.at)
    ensures Agree(c, Apply(c, swept, e), Apply(c, full, e.(event := Unswept(e.event))), e.at)
    ensures var f := e.(event := Unswept(e.event));
            Result(swept, e) == Result(full, f)
            || (IsClear(e.event) && Result(swept, e) == Cleared(false) && Result(full, f) == Cleared(true))
  {
    match e.event
    case Attempt(address, reach) => ClaimKeepsAgreement(c, swept, full, address, e.at, reach);
    case Mail(address) =>
      var key := Key(ResetMail, address);
      if key in full && key !in swept {
        assert IsStale(c, full[key], e.at);
      }
    case _ =>
  }

  lemma {:induction false} RunsAgree(c: Config, run: seq<Timed>, now: Time)
    requires InOrder(run) && (run != [] ==> run[|run| - 1].at <= now)
    ensures Agree(c, After(c, run), After(c, UnsweptRun(run)), now)
  {
    if run != [] {
      var n := |run| - 1;
      assert UnsweptRun(run)[..n] == UnsweptRun(run[..n]);
      RunsAgree(c, run[..n], run[n].at);
      var swept, full := After(c, run[..n]), After(c, UnsweptRun(run[..n]));
      ApplyKeepsAgreement(c, swept, full, run[n]);
      var a, b := After(c, run), After(c, UnsweptRun(run));
      forall k | k in b && k !in a ensures IsStale(c, b[k], now) {
        StaleStaysStale(c, b[k], run[n].at, now);
      }
    }
  }

  /**
   Whatever is swept and when: every attempt is admitted or refused, with the same seconds, and
   every mail sent or not, as on a table that is never swept.
   */
  lemma {:induction false} SweepIsInvisible(c: Config, run: seq<Timed>, i: nat)
    requires InOrder(run) && i < |run|
    ensures var swept, full := Results(c, run)[i], Results(c, UnsweptRun(run))[i];
            swept == full || (IsClear(run[i].event) && swept == Cleared(false) && full == Cleared(true))
    decreases |run|
  {
    var n := |run| - 1;
    assert UnsweptRun(run)[..n] == UnsweptRun(run[..n]);
    if i < n {
      SweepIsInvisible(c, run[..n], i);
      assert run[..n][i] == run[i];
    } else {
      RunsAgree(c, run[..n], run[n].at);
      ApplyKeepsAgreement(c, After(c, run[..n]), After(c, UnsweptRun(run[..n])), run[n]);
    }
  }

  /** And the locks are the same at any later moment. */
  lemma LocksAgree(c: Config, run: seq<Timed>, now: Time, key: Key)
    requires InOrder(run) && (run != [] ==> run[|run| - 1].at <= now)
    ensures IsLocked(Found(After(c, run), key, now), now) <==> IsLocked(Found(After(c, UnsweptRun(run)), key, now), now)
  {
    RunsAgree(c, run, now);
  }

  /** Clearing the row of that key. */
  function ClearOf(key: Key): Event { if key.kind.Login? then Clear(key.address) else ClearMail(key.address) }

  /** Nor can a clear tell, unless the row it clears has run out. */
  lemma ClearCannotTell(c: Config, run: seq<Timed>, key: Key, now: Time)
    requires InOrder(run) && (run != [] ==> run[|run| - 1].at <= now)
    requires var full := After(c, UnsweptRun(run)); key in full ==> !IsStale(c, full[key], now)
    ensures var clear := Timed(now, ClearOf(key)); Result(After(c, run), clear) == Result(After(c, UnsweptRun(run)), clear)
  {
    RunsAgree(c, run, now);
    ClearTells(After(c, run), key, now);
    ClearTells(After(c, UnsweptRun(run)), key, now);
  }

  lemma AfterOneMore(c: Config, run: seq<Timed>, e: Timed)
    ensures After(c, run + [e]) == Apply(c, After(c, run), e)
    ensures After(c, UnsweptRun(run + [e])) == Apply(c, After(c, UnsweptRun(run)), e.(event := Unswept(e.event)))
  {
    var unswept := e.(event := Unswept(e.event));
    assert (run + [e])[..|run|] == run;
    assert UnsweptRun(run + [e]) == UnsweptRun(run) + [unswept];
    assert (UnsweptRun(run) + [unswept])[..|run|] == UnsweptRun(run);
  }

  lemma SweepTakesTheStale(c: Config, swept: Table, full: Table, key: Key, other: string, now: Time)
    requires Agree(c, swept, full, now) && Key(Login, other) != key && Refusal(swept, other, now) == None
    ensures key in AfterClaim(c, swept, other, now, {key}) <==> key in full && !IsStale(c, full[key], now)
    ensures key in AfterClaim(c, full, other, now, {}) <==> key in full
  {
    ClaimKeepsAgreement(c, swept, full, other, now, {key});
  }

  lemma ClearTells(t: Table, key: Key, now: Time)
    ensures Result(t, Timed(now, ClearOf(key))) == Cleared(key in t)
  {
  }

  /**
   A row that has run out can be told, in every run: once an admitted attempt on another account
   has swept it, its clear says "there were none". Such a row is the only one for which that works.
   */
  lemma ClearCanTellExactly(c: Config, run: seq<Timed>, key: Key, other: string, now: Time)
    requires InOrder(run) && (run != [] ==> run[|run| - 1].at <= now)
    requires Key(Login, other) != key && Refusal(After(c, run), other, now) == None
    ensures var longer, clear := run + [Timed(now, Attempt(other, {key}))], Timed(now, ClearOf(key));
            var full := After(c, UnsweptRun(run));
            && InOrder(longer)
            && (Result(After(c, longer), clear) != Result(After(c, UnsweptRun(longer)), clear) <==>
                 key in full && IsStale(c, full[key], now))
  {
    var e := Timed(now, Attempt(other, {key}));
    RunsAgree(c, run, now);
    AfterOneMore(c, run, e);
    SweepTakesTheStale(c, After(c, run), After(c, UnsweptRun(run)), key, other, now);
    ClearTells(After(c, run + [e]), key, now);
    ClearTells(After(c, UnsweptRun(run + [e])), key, now);
  }

  // ---- How many attempts get through ----

  datatype Admission = Admission(at: Time, count: nat)

  /** The admission an event adds, if it is one on this account. */
  function NewAdmission(c: Config, t: Table, e: Timed, address: string): seq<Admission> {
    if e.event.Attempt? && e.event.address == address && Result(t, e).Admitted?
    then [Admission(e.at, Found(Apply(c, t, e), Key(Login, address), e.at).count)] else []
  }

  /** The attempts on one account that were let through, with the count each left behind. */
  function Admissions(c: Config, run: seq<Timed>, address: string): seq<Admission> {
    if run == [] then []
    else
      var n := |run| - 1;
      Admissions(c, run[..n], address) + NewAdmission(c, After(c, run[..n]), run[n], address)
  }

  predicate NeverClears(run: seq<Timed>, address: string) {
    forall i | 0 <= i < |run| :: run[i].event != Clear(address)
  }

  /** One admission after another: not before the lock of the first is over, and counting on unless it decayed. */
  predicate Follows(c: Config, first: Admission, second: Admission) {
    && second.at >= first.at + LockSeconds(c, first.count) * SECOND
    && (second.count == first.count + 1 || (second.count == 1 && second.at >= first.at + c.decay * SECOND))
  }

  /** What the row holds of the last admission; a swept row holds as much. */
  predicate Remembers(c: Config, t: Table, key: Key, last: Admission, now: Time) {
    var lock := LockSeconds(c, last.count);
    && last.at <= now
    && if key in t then t[key] == Row(last.count, if lock > 0 then Some(last.at + lock * SECOND) else None, last.at)
       else now >= last.at + c.decay * SECOND && now >= last.at + lock * SECOND
  }

  predicate AreAdmissions(c: Config, a: seq<Admission>) {
    && (forall i | 0 <= i < |a| :: a[i].count >= 1)
    && (forall i | 0 <= i < |a| - 1 :: Follows(c, a[i], a[i + 1]))
  }

  /** Anything that is not an attempt let through on the account leaves its last admission remembered. */
  lemma OthersAreRemembered(c: Config, t: Table, e: Timed, address: string, last: Admission, now: Time)
    requires Remembers(c, t, Key(Login, address), last, now) && now <= e.at && e.event != Clear(address)
    requires !(e.event.Attempt? && e.event.address == address && Result(t, e).Admitted?)
    ensures Remembers(c, Apply(c, t, e), Key(Login, address), last, e.at)
  {
  }

  /** The admissions so far and the table agree. */
  predicate Tracks(c: Config, t: Table, address: string, a: seq<Admission>, now: Time) {
    && AreAdmissions(c, a)
    && if a == [] then Key(Login, address) !in t else Remembers(c, t, Key(Login, address), a[|a| - 1], now)
  }

  lemma ApplyTracks(c: Config, t: Table, e: Timed, address: string, a: seq<Admission>, now: Time)
    requires Tracks(c, t, address, a, now) && now <= e.at && e.event != Clear(address)
    ensures Tracks(c, Apply(c, t, e), address, a + NewAdmission(c, t, e, address), e.at)
  {
    if NewAdmission(c, t, e, address) == [] {
      assert a + [] == a;
      if a != [] {
        OthersAreRemembered(c, t, e, address, a[|a| - 1], now);
      }
    }
  }

  lemma {:induction false} AdmissionsFollow(c: Config, run: seq<Timed>, address: string, start: Time)
    requires InOrder(run) && NeverClears(run, address) && (run != [] ==> start <= run[0].at)
    ensures Tracks(c, After(c, run), address, Admissions(c, run, address), if run == [] then start else run[|run| - 1].at)
  {
    if run != [] {
      var n := |run| - 1;
      AdmissionsFollow(c, run[..n], address, start);
      ApplyTracks(c, After(c, run[..n]), run[n], address, Admissions(c, run[..n], address),
                  if n == 0 then start else run[n - 1].at);
    }
  }

  /** The seconds of the first `n` locks: those after 1, 2, ..., n - 1 failures. */
  function LockSum(c: Config, n: nat): nat {
    if n == 0 then 0 else LockSum(c, n - 1) + LockSeconds(c, n - 1)
  }

  lemma {:induction false} WindowIsLong(c: Config, a: seq<Admission>, i: nat, j: nat)
    requires AreAdmissions(c, a) && i <= j < |a|
    requires a[j].at - a[i].at < c.decay * SECOND
    ensures a[j].count >= j - i + 1 && a[j].at - a[i].at >= LockSum(c, j - i + 1) * SECOND
  {
    if i < j {
      assert Follows(c, a[j - 1], a[j]);
      GapsArePositive(c, a, i, j - 1);
      WindowIsLong(c, a, i, j - 1);
      LockIsMonotone(c, j - i, a[j - 1].count);
    }
  }

  lemma {:induction false} GapsArePositive(c: Config, a: seq<Admission>, i: nat, j: nat)
    requires AreAdmissions(c, a) && i <= j < |a|
    ensures a[i].at <= a[j].at
  {
    if i < j {
      assert Follows(c, a[j - 1], a[j]);
      GapsArePositive(c, a, i, j - 1);
    }
  }

  /**
   However the attempts on all accounts arrive and whatever is swept: n consecutive attempts let
   through on one account, within less than a decay window and with no clear, take at least as
   long as the first n - 1 locks together.
   */
  lemma BackoffBound(c: Config, run: seq<Timed>, address: string, i: nat, j: nat)
    requires InOrder(run) && NeverClears(run, address)
    requires var a := Admissions(c, run, address); i <= j < |a| && a[j].at - a[i].at < c.decay * SECOND
    ensures var a := Admissions(c, run, address); LockSum(c, j - i + 1) * SECOND <= a[j].at - a[i].at
  {
    AdmissionsFollow(c, run, address, if run == [] then 0 else run[0].at);
    WindowIsLong(c, Admissions(c, run, address), i, j);
  }

  function Attempts(run: seq<Timed>, address: string): nat {
    if run == [] then 0
    else
      var e := run[|run| - 1].event;
      Attempts(run[..|run| - 1], address) + if e.Attempt? && e.address == address then 1 else 0
  }

  /**
   Of any number of attempts on an account at one moment, exactly the free ones and one more get
   through, or all of them if there is no lock at all.
   */
  lemma {:induction false} AtOnceExactly(c: Config, run: seq<Timed>, address: string, now: Time)
    requires c.decay > 0 && NeverClears(run, address) && forall i | 0 <= i < |run| :: run[i].at == now
    ensures |Admissions(c, run, address)|
         == if c.cap == 0 then Attempts(run, address) else Min(Attempts(run, address), c.free + 1)
    ensures HoldsExactly(c, After(c, run), address, |Admissions(c, run, address)|, now)
  {
    if run != [] {
      var n := |run| - 1;
      AtOnceExactly(c, run[..n], address, now);
      OneMoreAtOnce(c, After(c, run[..n]), run[n], address, |Admissions(c, run[..n], address)|, now);
    }
  }

  /** The row after `n` attempts that were let through at the same moment. */
  predicate HoldsExactly(c: Config, t: Table, address: string, n: nat, now: Time) {
    var key := Key(Login, address);
    if n == 0 then key !in t
    else key in t && t[key] == Row(n, if LockSeconds(c, n) > 0 then Some(now + LockSeconds(c, n) * SECOND) else None, now)
  }

  lemma OneMoreAtOnce(c: Config, t: Table, e: Timed, address: string, n: nat, now: Time)
    requires c.decay > 0 && e.at == now && e.event != Clear(address) && HoldsExactly(c, t, address, n, now)
    ensures var mine := e.event.Attempt? && e.event.address == address;
            && (mine ==> (Result(t, e).Admitted? <==> n <= c.free || c.cap == 0))
            && HoldsExactly(c, Apply(c, t, e), address, if mine && Result(t, e).Admitted? then n + 1 else n, now)
  {
    LockIsCappedDoubling(c, n);
    if n > c.free {
      assert Pow2(n - c.free) >= 1;
    }
  }
}
