/**
 The throttle (backend/app/auth/throttle.py) told from the requests alone: what the rows say at any
 moment follows from when an account was last let through, and when a mail was last sent to it.
 */
module ThrottleLog {
  import opened Clock
  import opened Options
  import opened Throttle

  ghost predicate IsUpTo(run: seq<Timed>, now: Time) {
    InOrder(run) && (run != [] ==> run[|run| - 1].at <= now)
  }

  // ---- Logins ----

  /** Nothing for the free failures, and then 2, 4, 8, ... seconds, but never more than the cap. */
  function Locked(c: Config, failures: nat): nat {
    if failures <= c.free then 0 else if Pow2(failures - c.free) > c.cap then c.cap else Pow2(failures - c.free)
  }

  /** Two seconds for the first failure too many, and twice as long for each one more, up to the cap. */
  lemma LockDoubles(c: Config, failures: nat)
    requires failures > c.free
    ensures Locked(c, failures + 1) == if 2 * Locked(c, failures) > c.cap then c.cap else 2 * Locked(c, failures)
    ensures Locked(c, c.free + 1) == if c.cap < 2 then c.cap else 2
  {
    assert Pow2(failures + 1 - c.free) == 2 * Pow2(failures - c.free);
    assert Pow2(1) == 2 * Pow2(0);
  }

  /**
   The last attempt on an account that was let through since its failures were forgotten, and how
   many there were in a row: one more each time, and from one again after a decay window.
   */
  function LastLogin(c: Config, run: seq<Timed>, address: string): Option<Admission> {
    if run == [] then None
    else
      var last, e := LastLogin(c, run[..|run| - 1], address), run[|run| - 1];
      if e.event == Clear(address) then None
      else if !(e.event.Attempt? && e.event.address == address) then last
      else match last
        case None => Some(Admission(e.at, 1))
        case Some(a) =>
          if e.at < a.at + Locked(c, a.count) * SECOND then last
          else Some(Admission(e.at, if e.at < a.at + c.decay * SECOND then a.count + 1 else 1))
  }

  /** What the table holds of it. */
  ghost predicate Holds(c: Config, t: Table, address: string, last: Option<Admission>, now: Time) {
    match last
    case None => Key(Login, address) !in t
    case Some(a) => Remembers(c, t, Key(Login, address), a, now)
  }

  lemma LockedIsLockSeconds(c: Config, failures: nat)
    ensures Locked(c, failures) == LockSeconds(c, failures)
  {
    LockIsCappedDoubling(c, failures);
  }

  lemma AttemptHolds(c: Config, t: Table, e: Timed, address: string, last: Option<Admission>, now: Time)
    requires Holds(c, t, address, last, now) && now <= e.at && e.event.Attempt? && e.event.address == address
    ensures Result(t, e).Admitted? <==> last.None? || e.at >= last.value.at + Locked(c, last.value.count) * SECOND
    ensures Result(t, e).Admitted? ==>
              Holds(c, Apply(c, t, e), address,
                    Some(Admission(e.at, if last.None? || e.at >= last.value.at + c.decay * SECOND then 1 else last.value.count + 1)), e.at)
  {
    if last.Some? {
      LockedIsLockSeconds(c, last.value.count);
    }
  }

  lemma {:induction false} RunHolds(c: Config, run: seq<Timed>, address: string)
    requires InOrder(run)
    ensures run == [] ==> Holds(c, After(c, run), address, LastLogin(c, run, address), 0)
    ensures run != [] ==> Holds(c, After(c, run), address, LastLogin(c, run, address), run[|run| - 1].at)
  {
    if run != [] {
      var n := |run| - 1;
      var t, last, e := After(c, run[..n]), LastLogin(c, run[..n], address), run[n];
      var before := if n == 0 then e.at else run[n - 1].at;
      RunHolds(c, run[..n], address);
      assert n == 0 ==> run[..n] == [];
      assert Holds(c, t, address, last, before);
      if e.event.Attempt? && e.event.address == address {
        AttemptHolds(c, t, e, address, last, before);
      }
      if last.Some? && e.event != Clear(address) && !(e.event.Attempt? && e.event.address == address && Result(t, e).Admitted?) {
        OthersAreRemembered(c, t, e, address, last.value, before);
      }
    }
  }

  /**
   In every run, an attempt is refused exactly while the lock of the last attempt that was let
   through lasts, and with the seconds that are left of it, rounded up.
   */
  lemma RefusedExactly(c: Config, run: seq<Timed>, address: string, now: Time, seconds: int)
    requires IsUpTo(run, now)
    ensures Refusal(After(c, run), address, now) == Some(seconds) <==>
            match LastLogin(c, run, address)
            case None => false
            case Some(a) =>
              var left := a.at + Locked(c, a.count) * 1_000_000 - now;
              left > 0 && (seconds - 1) * 1_000_000 < left <= seconds * 1_000_000
  {
    RunHolds(c, run, address);
    var last := LastLogin(c, run, address);
    if last.Some? {
      LockedIsLockSeconds(c, last.value.count);
    }
  }

  // ---- Mails ----

  /** When a mail was last sent to an account, unless its cooldown was ended since. */
  function LastMail(c: Config, run: seq<Timed>, address: string): Option<Time> {
    if run == [] then None
    else
      var last, e := LastMail(c, run[..|run| - 1], address), run[|run| - 1];
      if e.event == ClearMail(address) then None
      else if e.event == Mail(address) && (last.None? || e.at >= last.value + c.cooldown * SECOND) then Some(e.at)
      else last
  }

  /** The row is gone only when the cooldown is over. */
  ghost predicate HoldsMail(c: Config, t: Table, address: string, last: Option<Time>, now: Time) {
    var key := Key(ResetMail, address);
    match last
    case None => key !in t
    case Some(at) =>
      if key in t then t[key].lockedUntil == Some(at + c.cooldown * SECOND) else at + c.cooldown * SECOND <= now
  }

  lemma ApplyHoldsMail(c: Config, t: Table, e: Timed, address: string, last: Option<Time>, now: Time)
    requires HoldsMail(c, t, address, last, now) && now <= e.at
    ensures MayMail(t, address, e.at) <==> last.None? || e.at >= last.value + c.cooldown * SECOND
    ensures HoldsMail(c, Apply(c, t, e), address,
                      if e.event == ClearMail(address) then None
                      else if e.event == Mail(address) && MayMail(t, address, e.at) then Some(e.at) else last, e.at)
  {
  }

  lemma {:induction false} RunHoldsMail(c: Config, run: seq<Timed>, address: string)
    requires InOrder(run)
    ensures run == [] ==> HoldsMail(c, After(c, run), address, LastMail(c, run, address), 0)
    ensures run != [] ==> HoldsMail(c, After(c, run), address, LastMail(c, run, address), run[|run| - 1].at)
  {
    if run != [] {
      var n := |run| - 1;
      RunHoldsMail(c, run[..n], address);
      assert n == 0 ==> run[..n] == [];
      var before := if n == 0 then run[n].at else run[n - 1].at;
      ApplyHoldsMail(c, After(c, run[..n]), run[n], address, LastMail(c, run[..n], address), before);
    }
  }

  /** In every run, a mail may be sent exactly if the last one was sent `cooldown` seconds ago or longer, or was cleared. */
  lemma MailedExactly(c: Config, run: seq<Timed>, address: string, now: Time)
    requires IsUpTo(run, now)
    ensures Result(After(c, run), Timed(now, Mail(address))) == Mailed <==>
            match LastMail(c, run, address)
            case None => true
            case Some(at) => now >= at + c.cooldown * 1_000_000
  {
    RunHoldsMail(c, run, address);
    var last := LastMail(c, run, address);
    ApplyHoldsMail(c, After(c, run), Timed(now, Mail(address)), address, last,
                   if run == [] then now else run[|run| - 1].at);
  }
}
