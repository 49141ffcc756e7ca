/**
 Two-factor sign-in (backend/app/auth/mfa.py) on one account, statement by statement: conditional
 UPDATEs that race, and a replacement of the recovery codes that holds the account's row.
 */
module Mfa {
  import opened Options

  /** Seconds. */
  type Time = nat

  const STEP_SECONDS: nat := 30
  const RECOVERY_CODE_COUNT: nat := 10

  /** TOTP generation, and whether a sealed secret can still be read: one number for each sealed secret. */
  datatype Env = Env(otp: (nat, int) -> string, readable: nat -> bool)

  /** The MFA columns of a user. */
  datatype User = User(secret: Option<nat>, enabledAt: Option<Time>, lastStep: Option<int>)

  datatype RecoveryCode = RecoveryCode(issue: nat, used: bool)

  /** What `enable` has written but not committed, and the code that it was asked to confirm. */
  datatype Pending = Pending(user: User, code: string)

  /**
   A request under way: a confirming code checked against the secret it loaded; a sign-in code
   checked likewise; or a replacement of the recovery codes, which holds the user's row, has
   perhaps turned MFA on, and has perhaps deleted the codes that it saw.
   */
  datatype Work =
    | Confirming(secret: nat, code: string, step: int)
    | Claiming(secret: nat, code: string, step: int)
    | Issuing(pending: Option<Pending>, deleted: Option<set<nat>>)

  /** A step that was accepted, with the code and the secret it was checked against. */
  datatype Accepted = Accepted(secret: nat, code: string, step: int)

  /** The committed rows and fresh identifiers; and for the record, the steps accepted since MFA went on, and the codes spent. */
  datatype State = State(user: User, codes: map<nat, RecoveryCode>, nextSecret: nat, nextCode: nat, nextIssue: nat,
                         open: map<nat, Work>, accepted: seq<Accepted>, spent: seq<nat>)

  datatype Event =
    | BeginSetup
    | Confirm(x: nat, code: string, now: Time)
    | Enable(x: nat, now: Time)
    | Replace(x: nat)
    | Delete(x: nat)
    | Finish(x: nat)
    | ReadCode(x: nat, code: string, now: Time)
    | Claim(x: nat)
    | Spend(id: nat)
    | Disable
    | Rollback(x: nat)

  // ---- Matching a code ----

  predicate IsDigit(c: char) { '0' <= c <= '9' }

  /** `_normalize`, on ASCII. */
  function Normalize(code: string): string {
    if code == [] then []
    else
      var c := code[0];
      (if 'A' <= c <= 'Z' then [c - 'A' + 'a'] else if 'a' <= c <= 'z' || IsDigit(c) then [c] else []) + Normalize(code[1..])
  }

  predicate LooksLikeTotp(code: string) { |code| == 6 && forall i | 0 <= i < 6 :: IsDigit(code[i]) }

  predicate IsCodeOf(env: Env, secret: nat, step: int, code: string) {
    LooksLikeTotp(Normalize(code)) && env.otp(secret, step) == Normalize(code)
  }

  /** `matching_step`: the current step, then the one before, then the one after. */
  function MatchingStep(env: Env, secret: nat, code: string, now: Time): Option<int> {
    var current := now / STEP_SECONDS;
    if IsCodeOf(env, secret, current, code) then Some(current)
    else if IsCodeOf(env, secret, current - 1, code) then Some(current - 1)
    else if IsCodeOf(env, secret, current + 1, code) then Some(current + 1)
    else None
  }

  /** Distance in steps. */
  function Distance(a: int, b: int): nat { if a < b then b - a else a - b }

  /**
   A step is found exactly if the code is one of three, and it is the step of that code that is
   nearest to the current one; of two that are as near, the earlier.
   */
  lemma MatchingStepExactly(env: Env, secret: nat, code: string, now: Time)
    ensures var step, current := MatchingStep(env, secret, code, now), now / STEP_SECONDS;
            && (step.Some? ==>
                  && IsCodeOf(env, secret, step.value, code) && -1 <= step.value - current <= 1
                  && forall s | current - 1 <= s <= current + 1 && IsCodeOf(env, secret, s, code) ::
                       Distance(step.value, current) < Distance(s, current)
                       || (Distance(step.value, current) == Distance(s, current) && step.value <= s))
            && (step.None? <==> forall s | current - 1 <= s <= current + 1 :: !IsCodeOf(env, secret, s, code))
  {
    var current := now / STEP_SECONDS;
    if MatchingStep(env, secret, code, now).None? {
      forall s | current - 1 <= s <= current + 1 ensures !IsCodeOf(env, secret, s, code) {
        assert s == current || s == current - 1 || s == current + 1;
      }
    }
  }

  // ---- The statements ----

  predicate IsLocked(s: State) { exists x | x in s.open :: s.open[x].Issuing? }

  /** The codes that a replacement has deleted and not committed. */
  predicate IsBeingDeleted(s: State, code: nat) {
    exists x | x in s.open :: s.open[x].Issuing? && s.open[x].deleted.Some? && code in s.open[x].deleted.value
  }

  function Closed(s: State, x: nat): State { s.(open := s.open - {x}) }

  function AfterBeginSetup(s: State): State {
    if IsLocked(s) || s.user.enabledAt.Some? then s
    else s.(user := s.user.(secret := Some(s.nextSecret)), nextSecret := s.nextSecret + 1)
  }

  /** `confirm_mfa_setup`, up to the code it checks against the secret it loaded. */
  function AfterConfirm(env: Env, s: State, x: nat, code: string, now: Time): State {
    if x in s.open || s.user.secret.None? || s.user.enabledAt.Some? || !env.readable(s.user.secret.value) then s
    else
      match MatchingStep(env, s.user.secret.value, code, now)
      case None => s
      case Some(step) => s.(open := s.open[x := Confirming(s.user.secret.value, code, step)])
  }

  /** The conditional UPDATE of `enable`; from here to the commit the row is held. */
  function AfterEnable(s: State, x: nat, now: Time): State {
    if !(x in s.open && s.open[x].Confirming?) || IsLocked(s) then s
    else
      var w := s.open[x];
      if s.user.secret == Some(w.secret) && s.user.enabledAt.None?
      then s.(open := s.open[x := Issuing(Some(Pending(User(Some(w.secret), Some(now), Some(w.step)), w.code)), None)])
      else Closed(s, x)
  }

  /** `SELECT ... FOR UPDATE` in `replace_recovery_codes`, called on its own. */
  function AfterReplace(s: State, x: nat): State {
    if x in s.open || IsLocked(s) then s else s.(open := s.open[x := Issuing(None, None)])
  }

  /** Its DELETE, which reaches the codes that are committed by then. */
  function AfterDelete(s: State, x: nat): State {
    if x in s.open && s.open[x].Issuing? && s.open[x].deleted.None?
    then s.(open := s.open[x := s.open[x].(deleted := Some(s.codes.Keys))]) else s
  }

  /** A fresh set: unused codes of one issue, under identifiers of their own. */
  function FreshCodes(first: nat, issue: nat, n: nat): (codes: map<nat, RecoveryCode>)
    ensures forall id :: id in codes <==> first <= id < first + n
    ensures forall id | id in codes :: codes[id] == RecoveryCode(issue, false)
  {
    if n == 0 then map[] else FreshCodes(first, issue, n - 1)[first + n - 1 := RecoveryCode(issue, false)]
  }

  function NewCodes(s: State): map<nat, RecoveryCode> { FreshCodes(s.nextCode, s.nextIssue, RECOVERY_CODE_COUNT) }

  /** The step that the confirming code uses up. */
  function Confirmed(p: Pending): Accepted { Accepted(p.user.secret.GetOr(0), p.code, p.user.lastStep.GetOr(0)) }

  /** The new codes and the commit. */
  function AfterFinish(s: State, x: nat): State {
    if !(x in s.open && s.open[x].Issuing? && s.open[x].deleted.Some?) then s
    else
      var w := s.open[x];
      var next := Closed(s.(codes := (s.codes - w.deleted.value) + NewCodes(s), nextCode := s.nextCode + RECOVERY_CODE_COUNT,
                            nextIssue := s.nextIssue + 1), x);
      match w.pending
      case None => next
      case Some(p) => next.(user := p.user, accepted := [Confirmed(p)])
  }

  /** `claim_totp`, up to the step it found with the secret of the user it was handed. */
  function AfterReadCode(env: Env, s: State, x: nat, code: string, now: Time): State {
    if x in s.open || s.user.secret.None? || !env.readable(s.user.secret.value) then s
    else
      match MatchingStep(env, s.user.secret.value, code, now)
      case None => s
      case Some(step) => s.(open := s.open[x := Claiming(s.user.secret.value, code, step)])
  }

  /** Its conditional UPDATE. */
  function AfterClaim(s: State, x: nat): State {
    if !(x in s.open && s.open[x].Claiming?) || IsLocked(s) then s
    else
      var w := s.open[x];
      if s.user.lastStep.None? || s.user.lastStep.value < w.step
      then Closed(s.(user := s.user.(lastStep := Some(w.step)), accepted := s.accepted + [Accepted(w.secret, w.code, w.step)]), x)
      else Closed(s, x)
  }

  /** `claim_recovery_code`; a code whose deletion is not committed makes it wait. */
  function AfterSpend(s: State, code: nat): State {
    if code in s.codes && !s.codes[code].used && !IsBeingDeleted(s, code)
    then s.(codes := s.codes[code := s.codes[code].(used := true)], spent := s.spent + [code]) else s
  }

  /** `disable`: its UPDATE waits for the row only if there is a secret to forget. */
  function AfterDisable(s: State): State {
    if (s.user.secret.Some? && IsLocked(s)) || (exists c | c in s.codes :: IsBeingDeleted(s, c)) then s
    else if s.user.secret.Some? then s.(user := User(None, None, None), codes := map[], accepted := [])
    else s.(codes := map[])
  }

  function After(env: Env, s: State, e: Event): State {
    match e
    case BeginSetup => AfterBeginSetup(s)
    case Confirm(x, code, now) => AfterConfirm(env, s, x, code, now)
    case Enable(x, now) => AfterEnable(s, x, now)
    case Replace(x) => AfterReplace(s, x)
    case Delete(x) => AfterDelete(s, x)
    case Finish(x) => AfterFinish(s, x)
    case ReadCode(x, code, now) => AfterReadCode(env, s, x, code, now)
    case Claim(x) => AfterClaim(s, x)
    case Spend(id) => AfterSpend(s, id)
    case Disable => AfterDisable(s)
    case Rollback(x) => Closed(s, x)
  }

  function Run(env: Env, events: seq<Event>): State {
    if events == [] then State(User(None, None, None), map[], 0, 0, 0, map[], [], [])
    else After(env, Run(env, events[..|events| - 1]), events[|events| - 1])
  }

  // ---- What holds in every run ----

  /** While MFA is on, the accepted steps rise, from the confirming one to the last that is stored. */
  ghost predicate StepsRise(s: State) {
    s.user.enabledAt.Some? ==>
      && s.user.secret.Some? && s.accepted != [] && s.user.lastStep == Some(s.accepted[|s.accepted| - 1].step)
      && Rises(s.accepted)
  }

  ghost predicate Rises(accepted: seq<Accepted>) {
    forall i, j | 0 <= i < j < |accepted| :: accepted[i].step < accepted[j].step
  }

  ghost predicate CodesAreOneIssue(codes: map<nat, RecoveryCode>) {
    forall c, d | c in codes && d in codes :: codes[c].issue == codes[d].issue
  }

  /** A code on file and not marked has not been spent; none was spent twice. */
  ghost predicate SpentOnce(s: State) {
    && (forall c | c in s.codes :: c < s.nextCode && (!s.codes[c].used ==> c !in s.spent))
    && (forall c | c in s.spent :: c < s.nextCode)
    && (forall i, j | 0 <= i < j < |s.spent| :: s.spent[i] != s.spent[j])
  }

  ghost predicate OneHolder(open: map<nat, Work>) {
    forall x, y | x in open && y in open && open[x].Issuing? && open[y].Issuing? :: x == y
  }

  /** A request keeps what it checked; the one that holds the row has deleted all that is on file. */
  ghost predicate IsSound(env: Env, s: State, w: Work) {
    match w
    case Confirming(secret, code, step) => IsCodeOf(env, secret, step, code)
    case Claiming(_, _, _) => true
    case Issuing(pending, deleted) =>
      && (deleted.Some? ==> s.codes.Keys <= deleted.value)
      && (pending.Some? ==>
            && s.user.secret.Some? && s.user.enabledAt.None?
            && pending.value.user.secret == s.user.secret && pending.value.user.enabledAt.Some? && pending.value.user.lastStep.Some?
            && IsCodeOf(env, s.user.secret.value, pending.value.user.lastStep.value, pending.value.code))
  }

  ghost predicate AllSound(env: Env, s: State) { forall x | x in s.open :: IsSound(env, s, s.open[x]) }

  ghost predicate Inv(env: Env, s: State) {
    StepsRise(s) && CodesAreOneIssue(s.codes) && SpentOnce(s) && OneHolder(s.open) && AllSound(env, s)
  }

  lemma CheckKeepsInv(env: Env, s: State, e: Event)
    requires Inv(env, s) && (e.Confirm? || e.ReadCode?)
    ensures Inv(env, After(env, s, e))
  {
    var next := After(env, s, e);
    if s.user.secret.Some? {
      MatchingStepExactly(env, s.user.secret.value, e.code, e.now);
    }
    forall y | y in next.open ensures IsSound(env, next, next.open[y]) {
      assert y in s.open ==> IsSound(env, s, s.open[y]);
    }
  }

  lemma EnableKeepsInv(env: Env, s: State, x: nat, now: Time)
    requires Inv(env, s)
    ensures Inv(env, AfterEnable(s, x, now))
  {
    var next := AfterEnable(s, x, now);
    forall y | y in next.open ensures IsSound(env, next, next.open[y]) {
      assert IsSound(env, s, s.open[y]);
    }
  }

  lemma ReplaceKeepsInv(env: Env, s: State, e: Event)
    requires Inv(env, s) && (e.Replace? || e.Delete? || e.Rollback?)
    ensures Inv(env, After(env, s, e))
  {
    var next := After(env, s, e);
    forall y | y in next.open ensures IsSound(env, next, next.open[y]) {
      assert y in s.open ==> IsSound(env, s, s.open[y]);
    }
  }

  lemma UserChangeKeepsInv(env: Env, s: State, e: Event)
    requires Inv(env, s) && (e.BeginSetup? || e.Claim?)
    ensures Inv(env, After(env, s, e))
  {
    var next := After(env, s, e);
    forall y | y in next.open ensures IsSound(env, next, next.open[y]) {
      assert IsSound(env, s, s.open[y]);
    }
  }

  lemma DisableKeepsInv(env: Env, s: State)
    requires Inv(env, s)
    ensures Inv(env, AfterDisable(s))
  {
    var next := AfterDisable(s);
    forall y | y in next.open ensures IsSound(env, next, next.open[y]) {
      assert IsSound(env, s, s.open[y]);
    }
  }

  lemma SpendKeepsInv(env: Env, s: State, code: nat)
    requires Inv(env, s)
    ensures Inv(env, AfterSpend(s, code))
  {
    var next := AfterSpend(s, code);
    if next != s {
      assert next.codes.Keys == s.codes.Keys;
      forall y | y in next.open ensures IsSound(env, next, next.open[y]) {
        assert IsSound(env, s, s.open[y]);
      }
    }
  }

  lemma FinishKeepsInv(env: Env, s: State, x: nat)
    requires Inv(env, s)
    ensures Inv(env, AfterFinish(s, x))
  {
    var next := AfterFinish(s, x);
    if x in s.open && s.open[x].Issuing? && s.open[x].deleted.Some? {
      assert IsSound(env, s, s.open[x]);
      assert next.codes == NewCodes(s);
      forall y | y in next.open ensures IsSound(env, next, next.open[y]) {
        assert IsSound(env, s, s.open[y]) && !s.open[y].Issuing?;
      }
    }
  }

  lemma StepKeepsInv(env: Env, s: State, e: Event)
    requires Inv(env, s)
    ensures Inv(env, After(env, s, e))
  {
    match e {
      case BeginSetup => UserChangeKeepsInv(env, s, e);
      case Claim(_) => UserChangeKeepsInv(env, s, e);
      case Finish(x) => FinishKeepsInv(env, s, x);
      case Spend(id) => SpendKeepsInv(env, s, id);
      case Disable => DisableKeepsInv(env, s);
      case Enable(x, now) => EnableKeepsInv(env, s, x, now);
      case Confirm(_, _, _) => CheckKeepsInv(env, s, e);
      case ReadCode(_, _, _) => CheckKeepsInv(env, s, e);
      case _ => ReplaceKeepsInv(env, s, e);
    }
  }

  lemma {:induction false} RunKeepsInv(env: Env, events: seq<Event>)
    ensures Inv(env, Run(env, events))
  {
    if events != [] {
      RunKeepsInv(env, events[..|events| - 1]);
      StepKeepsInv(env, Run(env, events[..|events| - 1]), events[|events| - 1]);
    }
  }

  /** A step that is that of its code under the secret it was checked against, one of this account's. */
  ghost predicate IsGenuine(env: Env, s: State, a: Accepted) { IsCodeOf(env, a.secret, a.step, a.code) && a.secret < s.nextSecret }

  ghost predicate AllGenuine(env: Env, s: State) {
    && (s.user.secret.Some? ==> s.user.secret.value < s.nextSecret)
    && (forall i | 0 <= i < |s.accepted| :: IsGenuine(env, s, s.accepted[i]))
    && (forall x | x in s.open && s.open[x].Claiming? ::
          IsGenuine(env, s, Accepted(s.open[x].secret, s.open[x].code, s.open[x].step)))
  }

  lemma CheckIsGenuine(env: Env, s: State, e: Event)
    requires AllGenuine(env, s) && (e.Confirm? || e.ReadCode?)
    ensures AllGenuine(env, After(env, s, e))
  {
    if s.user.secret.Some? {
      MatchingStepExactly(env, s.user.secret.value, e.code, e.now);
    }
  }

  lemma StepIsGenuine(env: Env, s: State, e: Event)
    requires Inv(env, s) && AllGenuine(env, s)
    ensures AllGenuine(env, After(env, s, e))
  {
    match e {
      case Confirm(_, _, _) => CheckIsGenuine(env, s, e);
      case ReadCode(_, _, _) => CheckIsGenuine(env, s, e);
      case Finish(x) =>
        if x in s.open {
          assert IsSound(env, s, s.open[x]);
        }
      case _ =>
    }
  }

  lemma {:induction false} RunIsGenuine(env: Env, events: seq<Event>)
    ensures AllGenuine(env, Run(env, events))
  {
    if events != [] {
      RunIsGenuine(env, events[..|events| - 1]);
      RunKeepsInv(env, events[..|events| - 1]);
      StepIsGenuine(env, Run(env, events[..|events| - 1]), events[|events| - 1]);
    }
  }

  // ---- What the account can rely on ----

  /** From the confirming code to the next disable, every accepted step is past the one before. */
  lemma AcceptedStepsRise(env: Env, events: seq<Event>, i: nat, j: nat)
    requires var s := Run(env, events); s.user.enabledAt.Some? && i < j < |s.accepted|
    ensures var s := Run(env, events); s.user.lastStep.Some? && s.accepted[i].step < s.accepted[j].step <= s.user.lastStep.value
  {
    RunKeepsInv(env, events);
  }

  /** A step that was accepted since MFA went on is not accepted again. */
  lemma AcceptedStepIsRefused(env: Env, events: seq<Event>, x: nat)
    requires var s := Run(env, events);
             && s.user.enabledAt.Some? && x in s.open && s.open[x].Claiming?
             && exists i :: 0 <= i < |s.accepted| && s.accepted[i].step == s.open[x].step
    ensures AfterClaim(Run(env, events), x).accepted == Run(env, events).accepted
  {
    RunKeepsInv(env, events);
    var s := Run(env, events);
    var i :| 0 <= i < |s.accepted| && s.accepted[i].step == s.open[x].step;
    assert i < |s.accepted| - 1 ==> s.accepted[i].step < s.accepted[|s.accepted| - 1].step;
  }

  /** MFA goes on only with the secret that the confirming code was checked against, and that code's step counts as used. */
  lemma EnabledAsConfirmed(env: Env, events: seq<Event>, e: Event)
    requires var s := Run(env, events); s.user.enabledAt.None? && After(env, s, e).user.enabledAt.Some?
    ensures var s := Run(env, events); var next := After(env, s, e);
            && e.Finish? && e.x in s.open && s.open[e.x].Issuing? && s.open[e.x].pending.Some?
            && next.user.secret == s.user.secret && next.user.secret.Some? && next.user.lastStep.Some?
            && IsCodeOf(env, next.user.secret.value, next.user.lastStep.value, s.open[e.x].pending.value.code)
            && next.accepted == [Accepted(next.user.secret.value, s.open[e.x].pending.value.code, next.user.lastStep.value)]
            && next.codes == NewCodes(s)
  {
    var s := Run(env, events);
    RunKeepsInv(env, events);
    match e {
      case Finish(x) => assert IsSound(env, s, s.open[x]);
      case _ =>
    }
  }

  /** No recovery code is spent twice. */
  lemma CodesAreSpentOnce(env: Env, events: seq<Event>, i: nat, j: nat)
    requires i < j < |Run(env, events).spent|
    ensures Run(env, events).spent[i] != Run(env, events).spent[j]
  {
    RunKeepsInv(env, events);
  }

  /** The codes on file are always of one issue. */
  lemma CodesComeFromOneIssue(env: Env, events: seq<Event>, c: nat, d: nat)
    requires c in Run(env, events).codes && d in Run(env, events).codes
    ensures Run(env, events).codes[c].issue == Run(env, events).codes[d].issue
  {
    RunKeepsInv(env, events);
  }

  /** Every step that was accepted since MFA went on is that of its code, under a secret that was this account's. */
  lemma AcceptedCodesAreGenuine(env: Env, events: seq<Event>, i: nat)
    requires i < |Run(env, events).accepted|
    ensures var a := Run(env, events).accepted[i];
            IsCodeOf(env, a.secret, a.step, a.code) && a.secret < Run(env, events).nextSecret
  {
    RunIsGenuine(env, events);
  }

  // ---- Which secret a late claim is of ----

  lemma RunsOn(env: Env, events: seq<Event>, more: seq<Event>)
    requires more != []
    ensures Run(env, events + more) == After(env, Run(env, events + more[..|more| - 1]), more[|more| - 1])
  {
    assert (events + more)[..|events + more| - 1] == events + more[..|more| - 1];
  }

  lemma ForgottenInOneStep(env: Env, s: State, e: Event, secret: nat)
    requires Inv(env, s) && secret < s.nextSecret && s.user.secret != Some(secret)
    ensures secret < After(env, s, e).nextSecret && After(env, s, e).user.secret != Some(secret)
  {
    match e {
      case Finish(x) =>
        if x in s.open {
          assert IsSound(env, s, s.open[x]);
        }
      case _ =>
    }
  }

  /** A secret that is not the account's any more never becomes it again. */
  lemma {:induction false} ForgottenForGood(env: Env, events: seq<Event>, more: seq<Event>, secret: nat)
    requires secret < Run(env, events).nextSecret && Run(env, events).user.secret != Some(secret)
    ensures secret < Run(env, events + more).nextSecret && Run(env, events + more).user.secret != Some(secret)
    decreases |more|
  {
    if more == [] {
      assert events + more == events;
    } else {
      var n := |more| - 1;
      RunsOn(env, events, more);
      ForgottenForGood(env, events, more[..n], secret);
      RunKeepsInv(env, events + more[..n]);
      ForgottenInOneStep(env, Run(env, events + more[..n]), more[n], secret);
    }
  }

  /**
   `claim_totp` does not look at the secret again: the step that it accepts is of the secret in
   force exactly if that has been the account's secret ever since the code was checked.
   */
  lemma ClaimIsInForceExactly(env: Env, events: seq<Event>, more: seq<Event>, x: nat)
    requires var s := Run(env, events); x in s.open && s.open[x].Claiming?
    requires var s := Run(env, events + more);
             && x in s.open && s.open[x] == Run(env, events).open[x] && !IsLocked(s)
             && (s.user.lastStep.Some? ==> s.user.lastStep.value < s.open[x].step)
    ensures var s := Run(env, events + more);
            var w, next := s.open[x], AfterClaim(s, x);
            && next.accepted == s.accepted + [Accepted(w.secret, w.code, w.step)]
            && (next.user.secret == Some(w.secret) <==>
                 forall n: nat | n <= |more| :: Run(env, events + more[..n]).user.secret == Some(w.secret))
  {
    var secret := Run(env, events).open[x].secret;
    RunIsGenuine(env, events);
    assert more[..|more|] == more;
    if n: nat :| n <= |more| && Run(env, events + more[..n]).user.secret != Some(secret) {
      OnceForgotten(env, events, more, n, secret);
    }
  }

  lemma OnceForgotten(env: Env, events: seq<Event>, more: seq<Event>, n: nat, secret: nat)
    requires secret < Run(env, events).nextSecret && n <= |more| && Run(env, events + more[..n]).user.secret != Some(secret)
    ensures Run(env, events + more).user.secret != Some(secret)
  {
    NextSecretGrows(env, events, more[..n]);
    Regroups(events, more, n);
    ForgottenForGood(env, events + more[..n], more[n..], secret);
  }

  lemma Regroups(events: seq<Event>, more: seq<Event>, n: nat)
    requires n <= |more|
    ensures events + more[..n] + more[n..] == events + more
  {
  }

  lemma {:induction false} NextSecretGrows(env: Env, events: seq<Event>, more: seq<Event>)
    ensures Run(env, events).nextSecret <= Run(env, events + more).nextSecret
    decreases |more|
  {
    if more == [] {
      assert events + more == events;
    } else {
      var n := |more| - 1;
      RunsOn(env, events, more);
      NextSecretGrows(env, events, more[..n]);
      OneStepGrows(env, Run(env, events + more[..n]), more[n]);
    }
  }

  lemma OneStepGrows(env: Env, s: State, e: Event)
    ensures s.nextSecret <= After(env, s, e).nextSecret
  {
  }

  lemma SecretStaysInOneStep(env: Env, s: State, e: Event)
    requires Inv(env, s) && s.user.enabledAt.Some? && !e.Disable?
    ensures After(env, s, e).user.enabledAt.Some? && After(env, s, e).user.secret == s.user.secret
  {
    match e {
      case Finish(x) =>
        if x in s.open {
          assert IsSound(env, s, s.open[x]);
        }
      case _ =>
    }
  }

  /** While MFA is on, only a disable takes the secret away, so claims without one in between are of the secret in force. */
  lemma {:induction false} SecretStaysWhileOn(env: Env, events: seq<Event>, more: seq<Event>)
    requires Run(env, events).user.enabledAt.Some? && forall e | e in more :: !e.Disable?
    ensures Run(env, events + more).user.enabledAt.Some? && Run(env, events + more).user.secret == Run(env, events).user.secret
    decreases |more|
  {
    if more == [] {
      assert events + more == events;
    } else {
      var n := |more| - 1;
      RunsOn(env, events, more);
      assert forall e | e in more[..n] :: e in more;
      assert more[n] in more;
      SecretStaysWhileOn(env, events, more[..n]);
      RunKeepsInv(env, events + more[..n]);
      SecretStaysInOneStep(env, Run(env, events + more[..n]), more[n]);
    }
  }

  /** A request that read the account before a disable still claims its step after it. */
  lemma LateClaimIsAcceptedWhileOff(s: State, x: nat)
    requires x in s.open && s.open[x].Claiming? && !IsLocked(s) && s.user.secret.Some?
    ensures var off := AfterDisable(s);
            && off.user == User(None, None, None)
            && AfterClaim(off, x).user == User(None, None, Some(s.open[x].step))
  {
  }

  /** The account set up anew by the request `y`, after a disable. */
  function SetUpAnew(env: Env, s: State, y: nat, code: string, now: Time): State {
    var pending := AfterEnable(AfterConfirm(env, AfterBeginSetup(AfterDisable(s)), y, code, now), y, now);
    AfterFinish(AfterDelete(pending, y), y)
  }

  /**
   And if MFA has been set up again meanwhile, under another secret, the step of the old code
   joins those accepted in the new span, whenever it is past the confirming one.
   */
  lemma LateClaimJoinsAnotherSecret(env: Env, s: State, x: nat, y: nat, code: string, now: Time)
    requires x in s.open && s.open[x].Claiming? && s.user.secret == Some(s.open[x].secret) && s.open[x].secret < s.nextSecret
    requires y !in s.open && forall z | z in s.open :: !s.open[z].Issuing?
    requires env.readable(s.nextSecret) && MatchingStep(env, s.nextSecret, code, now).Some?
    requires MatchingStep(env, s.nextSecret, code, now).value < s.open[x].step
    ensures var w, next := s.open[x], AfterClaim(SetUpAnew(env, s, y, code, now), x);
            && next.user == User(Some(s.nextSecret), Some(now), Some(w.step)) && s.nextSecret != w.secret
            && next.accepted == [Accepted(s.nextSecret, code, MatchingStep(env, s.nextSecret, code, now).value),
                                 Accepted(w.secret, w.code, w.step)]
  {
    var off := AfterBeginSetup(AfterDisable(s));
    assert off.user == User(Some(s.nextSecret), None, None) && off.open == s.open;
    var step := MatchingStep(env, s.nextSecret, code, now).value;
    var confirmed := AfterConfirm(env, off, y, code, now);
    assert confirmed == off.(open := off.open[y := Confirming(s.nextSecret, code, step)]);
    var pending := AfterEnable(confirmed, y, now);
    assert pending.open == s.open[y := Issuing(Some(Pending(User(Some(s.nextSecret), Some(now), Some(step)), code)), None)];
    var on := AfterFinish(AfterDelete(pending, y), y);
    assert on.user == User(Some(s.nextSecret), Some(now), Some(step));
    assert on.accepted == [Accepted(s.nextSecret, code, step)];
    assert on.open == s.open;
  }

  // ---- The account ----

  class Account {
    var user: User
    var codes: map<nat, RecoveryCode>
    var nextSecret: nat
    var nextCode: nat
    var nextIssue: nat
    var open: map<nat, Work>
    ghost var accepted: seq<Accepted>
    ghost var spent: seq<nat>

    ghost function Value(): State
      reads this
    {
      State(user, codes, nextSecret, nextCode, nextIssue, open, accepted, spent)
    }

    constructor (env: Env)
      ensures Value() == Run(env, [])
    {
      user, codes, nextSecret, nextCode, nextIssue, open := User(None, None, None), map[], 0, 0, 0, map[];
      accepted, spent := [], [];
    }

    static method FindStep(env: Env, secret: nat, code: string, now: Time) returns (found: Option<int>)
      ensures found == MatchingStep(env, secret, code, now)
    {
      var plain := Normalize(code);
      if !LooksLikeTotp(plain) {
        return None;
      }
      var current := now / STEP_SECONDS;
      var steps := [current, current - 1, current + 1];
      for i := 0 to 3
        invariant i > 0 ==> !IsCodeOf(env, secret, current, code)
        invariant i > 1 ==> !IsCodeOf(env, secret, current - 1, code)
        invariant i > 2 ==> !IsCodeOf(env, secret, current + 1, code)
      {
        if env.otp(secret, steps[i]) == plain {
          return Some(steps[i]);
        }
      }
      found := None;
    }

    method BeginSetup() returns (stored: bool)
      modifies this
      ensures Value() == AfterBeginSetup(old(Value())) && (stored <==> !old(IsLocked(Value())) && old(user).enabledAt.None?)
    {
      var isLocked := exists x | x in open :: open[x].Issuing?;
      stored := !isLocked && user.enabledAt.None?;
      if stored {
        user := user.(secret := Some(nextSecret));
        nextSecret := nextSecret + 1;
      }
    }

    method CheckConfirmation(env: Env, x: nat, code: string, now: Time)
      modifies this
      ensures Value() == AfterConfirm(env, old(Value()), x, code, now)
    {
      if x in open || user.secret.None? || user.enabledAt.Some? || !env.readable(user.secret.value) {
        return;
      }
      var step := FindStep(env, user.secret.value, code, now);
      if step.Some? {
        open := open[x := Confirming(user.secret.value, code, step.value)];
      }
    }

    method Enable(x: nat, now: Time)
      modifies this
      ensures Value() == AfterEnable(old(Value()), x, now)
    {
      var isLocked := exists y | y in open :: open[y].Issuing?;
      if !(x in open && open[x].Confirming?) || isLocked {
        return;
      }
      var w := open[x];
      if user.secret == Some(w.secret) && user.enabledAt.None? {
        var written := user.(enabledAt := Some(now), lastStep := Some(w.step));
        open := open[x := Issuing(Some(Pending(written, w.code)), None)];
      } else {
        open := open - {x};
      }
    }

    /** The row lock with which `replace_recovery_codes` begins. */
    method LockForReplacement(x: nat)
      modifies this
      ensures Value() == AfterReplace(old(Value()), x)
    {
      var isLocked := exists y | y in open :: open[y].Issuing?;
      if x !in open && !isLocked {
        open := open[x := Issuing(None, None)];
      }
    }

    method DeleteCodes(x: nat)
      modifies this
      ensures Value() == AfterDelete(old(Value()), x)
    {
      if x in open && open[x].Issuing? && open[x].deleted.None? {
        open := open[x := open[x].(deleted := Some(codes.Keys))];
      }
    }

    method IssueCodes(x: nat)
      modifies this
      ensures Value() == AfterFinish(old(Value()), x)
    {
      if !(x in open && open[x].Issuing? && open[x].deleted.Some?) {
        return;
      }
      var w := open[x];
      var issued: map<nat, RecoveryCode> := map[];
      for i := 0 to RECOVERY_CODE_COUNT
        invariant issued == FreshCodes(nextCode, nextIssue, i)
      {
        issued := issued[nextCode + i := RecoveryCode(nextIssue, false)];
      }
      codes := (codes - w.deleted.value) + issued;
      nextCode, nextIssue := nextCode + RECOVERY_CODE_COUNT, nextIssue + 1;
      if w.pending.Some? {
        user := w.pending.value.user;
        accepted := [Confirmed(w.pending.value)];
      }
      open := open - {x};
    }

    method ReadCode(env: Env, x: nat, code: string, now: Time)
      modifies this
      ensures Value() == AfterReadCode(env, old(Value()), x, code, now)
    {
      if x in open || user.secret.None? || !env.readable(user.secret.value) {
        return;
      }
      var step := FindStep(env, user.secret.value, code, now);
      if step.Some? {
        open := open[x := Claiming(user.secret.value, code, step.value)];
      }
    }

    method ClaimTotp(x: nat) returns (claimed: bool)
      modifies this
      ensures Value() == AfterClaim(old(Value()), x) && (claimed <==> accepted != old(accepted))
    {
      var isLocked := exists y | y in open :: open[y].Issuing?;
      if !(x in open && open[x].Claiming?) || isLocked {
        return false;
      }
      var w := open[x];
      open := open - {x};
      claimed := user.lastStep.None? || user.lastStep.value < w.step;
      if claimed {
        user := user.(lastStep := Some(w.step));
        accepted := accepted + [Accepted(w.secret, w.code, w.step)];
        assert |accepted| == |old(accepted)| + 1;
      }
    }

    method ClaimRecoveryCode(code: nat) returns (spentNow: bool)
      modifies this
      ensures Value() == AfterSpend(old(Value()), code) && (spentNow <==> spent != old(spent))
    {
      var waits := exists x | x in open :: open[x].Issuing? && open[x].deleted.Some? && code in open[x].deleted.value;
      spentNow := code in codes && !codes[code].used && !waits;
      if spentNow {
        codes := codes[code := codes[code].(used := true)];
        spent := spent + [code];
        assert |spent| == |old(spent)| + 1;
      }
    }

    method DisableMfa()
      modifies this
      ensures Value() == AfterDisable(old(Value()))
    {
      var isLocked := exists x | x in open :: open[x].Issuing?;
      var waits := exists c | c in codes :: exists x | x in open :: open[x].Issuing? && open[x].deleted.Some? && c in open[x].deleted.value;
      if (user.secret.Some? && isLocked) || waits {
        return;
      }
      if user.secret.Some? {
        user := User(None, None, None);
        accepted := [];
      }
      codes := map[];
    }
  }
}
