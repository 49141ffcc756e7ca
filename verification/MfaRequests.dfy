/**
 What each request of two-factor sign-in does when nothing comes in between
 (backend/app/auth/mfa.py): setting up, signing in, new recovery codes, spending one, turning off.
 */
module MfaRequests {
  import opened Options
  import opened Mfa

  /** Nobody holds the account's row. */
  ghost predicate IsFree(s: State) { forall x | x in s.open :: !s.open[x].Issuing? }

  lemma FreeIsUnlocked(s: State)
    requires IsFree(s)
    ensures !IsLocked(s) && forall c :: !IsBeingDeleted(s, c)
  {
  }

  // ---- The code as it is typed ----

  /** Letters are taken in lower case, digits as they are, and nothing else counts. */
  lemma {:induction false} NormalizeIsPerCharacter(a: string, b: string)
    ensures Normalize(a + b) == Normalize(a) + Normalize(b)
    ensures |a| == 1 ==>
              if 'A' <= a[0] <= 'Z' then Normalize(a) == [('a' as int + a[0] as int - 'A' as int) as char]
              else if 'a' <= a[0] <= 'z' || '0' <= a[0] <= '9' then Normalize(a) == a
              else Normalize(a) == []
  {
    if a == [] {
      assert a + b == b;
    } else {
      assert (a + b)[1..] == a[1..] + b;
      NormalizeIsPerCharacter(a[1..], b);
    }
  }

  // ---- Setting up ----

  /** A pending secret is one that the account never had, and nothing else changes; with MFA on, nothing does. */
  lemma SetupIsFresh(env: Env, events: seq<Event>)
    requires IsFree(Run(env, events))
    ensures var s, next := Run(env, events), Run(env, events + [BeginSetup]);
            if s.user.enabledAt.Some? then next == s
            else
              && next.user.secret.Some? && next.user == s.user.(secret := next.user.secret)
              && (forall n: nat | n <= |events| :: Run(env, events[..n]).user.secret != next.user.secret)
              && next.codes == s.codes && next.open == s.open && next.accepted == s.accepted && next.spent == s.spent
  {
    FreeIsUnlocked(Run(env, events));
    assert (events + [BeginSetup])[..|events|] == events;
    forall n: nat | n <= |events| ensures Run(env, events[..n]).user.secret != Some(Run(env, events).nextSecret) {
      RunIsGenuine(env, events[..n]);
      NextSecretGrows(env, events[..n], events[n..]);
      assert events[..n] + events[n..] == events;
    }
  }

  /** Ten codes that were never issued before, none of them used. */
  ghost predicate AreFresh(s: State, codes: map<nat, RecoveryCode>) {
    && |codes| == 10
    && forall c | c in codes :: c !in s.codes && c !in s.spent && !codes[c].used
  }

  lemma {:induction false} FreshCodesCount(first: nat, issue: nat, n: nat)
    ensures |FreshCodes(first, issue, n)| == n
  {
    if n > 0 {
      var fewer := FreshCodes(first, issue, n - 1);
      FreshCodesCount(first, issue, n - 1);
      assert FreshCodes(first, issue, n).Keys == fewer.Keys + {first + n - 1};
      assert |FreshCodes(first, issue, n).Keys| == |fewer.Keys| + 1;
    }
  }

  lemma NewCodesAreFresh(env: Env, s: State)
    requires Inv(env, s)
    ensures AreFresh(s, NewCodes(s))
  {
    FreshCodesCount(s.nextCode, s.nextIssue, 10);
  }

  lemma NothingIsLeft(codes: map<nat, RecoveryCode>, issued: map<nat, RecoveryCode>)
    ensures (codes - codes.Keys) + issued == issued
  {
  }

  lemma ReopenAndClose(open: map<nat, Work>, x: nat, w: Work)
    ensures open[x := w] - {x} == open - {x}
    ensures x !in open ==> open - {x} == open
  {
  }

  /** What a replacement leaves. */
  function Replaced(s: State, x: nat, pending: Option<Pending>): State {
    s.(codes := NewCodes(s), nextCode := s.nextCode + RECOVERY_CODE_COUNT, nextIssue := s.nextIssue + 1, open := s.open - {x},
       user := if pending.Some? then pending.value.user else s.user,
       accepted := if pending.Some? then [Confirmed(pending.value)] else s.accepted)
  }

  lemma DeletedAndFinished(s: State, x: nat, pending: Option<Pending>)
    requires x in s.open && s.open[x] == Issuing(pending, None)
    ensures AfterFinish(AfterDelete(s, x), x) == Replaced(s, x, pending)
  {
    var w := Issuing(pending, Some(s.codes.Keys));
    var deleted := s.(open := s.open[x := w]);
    assert AfterDelete(s, x) == deleted;
    NothingIsLeft(s.codes, NewCodes(s));
    ReopenAndClose(s.open, x, w);
  }

  /** The last two statements of a replacement: the codes on file are gone, and the new ones are there. */
  lemma CodesAreReplaced(env: Env, s: State, x: nat, pending: Option<Pending>)
    requires Inv(env, s) && x in s.open && s.open[x] == Issuing(pending, None)
    ensures var next := AfterFinish(AfterDelete(s, x), x);
            && AreFresh(s, next.codes) && next.open == s.open - {x} && next.spent == s.spent
            && next.user == (if pending.Some? then pending.value.user else s.user)
            && (pending.None? ==> next.accepted == s.accepted)
  {
    NewCodesAreFresh(env, s);
    DeletedAndFinished(s, x, pending);
  }

  /** Confirming a pending secret, from the check of the code to the commit. */
  function SetUp(env: Env, s: State, x: nat, code: string, now: Time): State {
    AfterFinish(AfterDelete(AfterEnable(AfterConfirm(env, s, x, code, now), x, now), x), x)
  }

  /** A code of the current step, the one before or the one after. */
  ghost predicate IsRecent(env: Env, secret: nat, code: string, now: Time) {
    exists step :: now / 30 - 1 <= step <= now / 30 + 1 && IsCodeOf(env, secret, step, code)
  }

  /** MFA is on with the pending secret, the step of the code is used up, and there are ten fresh codes. */
  ghost predicate IsOn(env: Env, s: State, next: State, secret: nat, code: string, now: Time) {
    && next.user.secret == Some(secret) && next.user.enabledAt == Some(now) && next.user.lastStep.Some?
    && now / 30 - 1 <= next.user.lastStep.value <= now / 30 + 1 && IsCodeOf(env, secret, next.user.lastStep.value, code)
    && AreFresh(s, next.codes) && next.spent == s.spent && next.open == s.open
  }

  /** With a recent code MFA is on, and with any other code nothing happens. */
  lemma SetUpExactly(env: Env, s: State, x: nat, code: string, now: Time)
    requires Inv(env, s) && IsFree(s) && x !in s.open && s.user.secret.Some? && s.user.enabledAt.None? && env.readable(s.user.secret.value)
    ensures if IsRecent(env, s.user.secret.value, code, now)
            then IsOn(env, s, SetUp(env, s, x, code, now), s.user.secret.value, code, now)
            else SetUp(env, s, x, code, now) == s
  {
    var secret := s.user.secret.value;
    MatchingStepExactly(env, secret, code, now);
    if MatchingStep(env, secret, code, now).Some? {
      SetUpSucceeds(env, s, x, secret, code, MatchingStep(env, secret, code, now).value, now);
    } else {
      SetUpFails(env, s, x, code, now);
    }
  }

  lemma SetUpFails(env: Env, s: State, x: nat, code: string, now: Time)
    requires x !in s.open && s.user.secret.Some? && MatchingStep(env, s.user.secret.value, code, now).None?
    ensures SetUp(env, s, x, code, now) == s
  {
  }

  lemma ConfirmedAlone(env: Env, s: State, x: nat, secret: nat, code: string, step: int, now: Time)
    requires x !in s.open && s.user.secret == Some(secret) && s.user.enabledAt.None? && env.readable(secret)
    requires MatchingStep(env, secret, code, now) == Some(step)
    ensures AfterConfirm(env, s, x, code, now) == s.(open := s.open[x := Confirming(secret, code, step)])
  {
  }

  lemma SetUpSucceeds(env: Env, s: State, x: nat, secret: nat, code: string, step: int, now: Time)
    requires Inv(env, s) && IsFree(s) && x !in s.open && s.user.secret == Some(secret) && s.user.enabledAt.None? && env.readable(secret)
    requires MatchingStep(env, secret, code, now) == Some(step)
    requires IsCodeOf(env, secret, step, code) && now / 30 - 1 <= step <= now / 30 + 1
    ensures IsOn(env, s, SetUp(env, s, x, code, now), secret, code, now)
  {
    ConfirmedAlone(env, s, x, secret, code, step, now);
    EnabledAlone(env, s, x, secret, code, step, now);
    IssuedAlone(env, s, x, Pending(User(Some(secret), Some(now), Some(step)), code));
  }

  lemma IssuedAlone(env: Env, s: State, x: nat, pending: Pending)
    requires x !in s.open && Inv(env, s.(open := s.open[x := Issuing(Some(pending), None)]))
    ensures var next := AfterFinish(AfterDelete(s.(open := s.open[x := Issuing(Some(pending), None)]), x), x);
            next.user == pending.user && AreFresh(s, next.codes) && next.spent == s.spent && next.open == s.open
  {
    var w := Issuing(Some(pending), None);
    CodesAreReplaced(env, s.(open := s.open[x := w]), x, Some(pending));
    ReopenAndClose(s.open, x, w);
  }

  lemma EnabledAlone(env: Env, s: State, x: nat, secret: nat, code: string, step: int, now: Time)
    requires Inv(env, s) && IsFree(s) && x !in s.open && s.user.secret == Some(secret) && s.user.enabledAt.None?
    requires IsCodeOf(env, secret, step, code)
    ensures var confirmed := s.(open := s.open[x := Confirming(secret, code, step)]);
            var enabled := AfterEnable(confirmed, x, now);
            && enabled == s.(open := s.open[x := Issuing(Some(Pending(User(Some(secret), Some(now), Some(step)), code)), None)])
            && Inv(env, enabled)
  {
    var confirmed := s.(open := s.open[x := Confirming(secret, code, step)]);
    FreeIsUnlocked(confirmed);
    forall y | y in confirmed.open ensures IsSound(env, confirmed, confirmed.open[y]) {
      assert y in s.open ==> IsSound(env, s, s.open[y]);
    }
    EnableKeepsInv(env, confirmed, x, now);
    assert confirmed.open[x := Issuing(Some(Pending(User(Some(secret), Some(now), Some(step)), code)), None)]
        == s.open[x := Issuing(Some(Pending(User(Some(secret), Some(now), Some(step)), code)), None)];
  }

  lemma HeldAlone(env: Env, s: State, x: nat)
    requires Inv(env, s) && IsFree(s) && x !in s.open
    ensures AfterReplace(s, x) == s.(open := s.open[x := Issuing(None, None)]) && Inv(env, AfterReplace(s, x))
  {
    FreeIsUnlocked(s);
    ReplaceKeepsInv(env, s, Replace(x));
  }

  /** New recovery codes: ten fresh ones instead of all that were on file, and nothing else. */
  lemma ReplacementIsFresh(env: Env, s: State, x: nat)
    requires Inv(env, s) && IsFree(s) && x !in s.open
    ensures var next := AfterFinish(AfterDelete(AfterReplace(s, x), x), x);
            AreFresh(s, next.codes) && next.user == s.user && next.accepted == s.accepted && next.spent == s.spent && next.open == s.open
  {
    HeldAlone(env, s, x);
    CodesAreReplaced(env, AfterReplace(s, x), x, None);
    ReopenAndClose(s.open, x, Issuing(None, None));
  }

  // ---- Signing in ----

  /** A sign-in code, from its check to the conditional UPDATE. */
  function SignIn(env: Env, s: State, x: nat, code: string, now: Time): State {
    AfterClaim(AfterReadCode(env, s, x, code, now), x)
  }

  /** It is accepted exactly if its step is one of three and past the last one that was, which it then is itself. */
  lemma SignInExactly(env: Env, s: State, x: nat, code: string, now: Time)
    requires IsFree(s) && x !in s.open && s.user.secret.Some?
    ensures var next := SignIn(env, s, x, code, now);
            var step := MatchingStep(env, s.user.secret.value, code, now);
            if env.readable(s.user.secret.value) && step.Some? && (s.user.lastStep.Some? ==> s.user.lastStep.value < step.value)
            then next == s.(user := s.user.(lastStep := step),
                            accepted := s.accepted + [Accepted(s.user.secret.value, code, step.value)])
            else next == s
  {
    FreeIsUnlocked(s);
    var step := MatchingStep(env, s.user.secret.value, code, now);
    if env.readable(s.user.secret.value) && step.Some? {
      var work := Claiming(s.user.secret.value, code, step.value);
      var read := s.(open := s.open[x := work]);
      assert AfterReadCode(env, s, x, code, now) == read;
      FreeIsUnlocked(read);
      assert read.open - {x} == s.open;
    }
  }

  /** A recovery code is good exactly if it is on file and not used; then it is used, and nothing else changes. */
  lemma SpendExactly(s: State, code: nat)
    requires IsFree(s)
    ensures var next := AfterSpend(s, code);
            if code in s.codes && !s.codes[code].used
            then next.codes.Keys == s.codes.Keys && next.codes[code].used && next.spent == s.spent + [code]
                 && (forall c | c in s.codes && c != code :: next.codes[c] == s.codes[c])
                 && next.user == s.user && next.open == s.open && next.accepted == s.accepted
            else next == s
  {
    FreeIsUnlocked(s);
  }

  /** Turning off forgets the secret, the step and every code; it is also what forgets codes that are left without a secret. */
  lemma DisableExactly(s: State)
    requires IsFree(s)
    ensures var next := AfterDisable(s);
            && next.codes == map[] && next.open == s.open && next.spent == s.spent
            && (s.user.secret.Some? ==> next.user == User(None, None, None))
            && (s.user.secret.None? ==> next.user == s.user)
  {
    FreeIsUnlocked(s);
  }
}
