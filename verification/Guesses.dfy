/** How many wrong passphrases and codes the handlers let anyone try. */
module Guesses {
  import opened Common
  import opened Login
  import opened Limiting
  import opened Totp
  import VaultSpec

  /** A guess that is heard and turns out wrong, by the vault's own judgement. */
  ghost predicate WrongGuess(codes: CodeFn, s: Site, q: Request) {
    && Heard(s, q)
    && var asker := Login.Now(s, q.visit).value;
      match q
      case PostUnlock(_, passphrase) =>
        VaultSpec.Unlock(s.st, passphrase).Err? && !VaultSpec.Unlock(s.st, passphrase).error.NotInit?
      case PostCode(_, code, clock) =>
        asker.pending && asker.dek.Some?
          && VaultSpec.VerifyLoginTotp(s.st, codes, asker.dek.value, code, clock).1 != Ok(true)
      case PostRekey(_, passphrase, params, nonce, dek, nonces) =>
        asker.Unlocked() && VaultSpec.Rekey(s.st, passphrase, params, nonce, dek, nonces).1.Err?
      case PostPassphrase(_, current, passphrase, confirm, runes, _, _) =>
        asker.Unlocked() && runes >= MIN_PASSPHRASE && passphrase == confirm && VaultSpec.Unlock(s.st, current).Err?
      case _ => false
  }

  ghost function WrongGuesses(codes: CodeFn, s: Site, qs: seq<Request>): nat
    decreases |qs|
  {
    if qs == [] then 0
    else
      var n := |qs| - 1;
      WrongGuesses(codes, s, qs[..n]) + if WrongGuess(codes, SiteAfter(codes, s, qs[..n]), qs[n]) then 1 else 0
  }

  /** Each wrong guess, and nothing else, is a failure to the limiter, which had
      allowed it. */
  lemma LimiterSeesEachGuess(codes: CodeFn, s: Site, q: Request)
    ensures var l := Login.Serve(codes, s, q).0.limits;
      if WrongGuess(codes, s, q)
      then AllowedAt(s.limits, q.visit.ip, q.visit.now) && l == AfterFail(s.limits, q.visit.ip, q.visit.now)
      else l == s.limits || l == AfterReset(s.limits, q.visit.ip) || l == AfterSweep(s.limits, q.visit.now)
  {
    hide AllowedAt, WaitAt, AfterFail, AfterReset, AfterSweep;
    hide VaultSpec.Setup, VaultSpec.Unlock, VaultSpec.Rekey;
    hide VaultSpec.VerifyLoginTotp, VaultSpec.ChangePassphrase, VaultSpec.TotpEnabled;
  }

  ghost predicate Counted(s: Site, wrong: nat, t0: int, now: int) {
    exists starts: nat :: Metered(System(s.limits, 0, wrong, starts), t0, now, 1)
  }

  lemma ServeKeepsCounted(codes: CodeFn, s: Site, q: Request, wrong: nat, t0: int, now: int)
    requires Counted(s, wrong, t0, now) && now <= q.visit.now
    ensures Counted(Login.Serve(codes, s, q).0, wrong + if WrongGuess(codes, s, q) then 1 else 0, t0, q.visit.now)
  {
    LimiterSeesEachGuess(codes, s, q);
    var starts: nat :| Metered(System(s.limits, 0, wrong, starts), t0, now, 1);
    var sys, at, ip := System(s.limits, 0, wrong, starts), q.visit.now, q.visit.ip;
    var after := Login.Serve(codes, s, q).0.limits;
    if WrongGuess(codes, s, q) {
      MoveKeepsMetered(sys, Begin(ip, at), t0, now, 1);
      var sys' := Moved(sys, Begin(ip, at));
      MoveKeepsMetered(sys', EndFailed(ip, at), t0, at, 1);
      assert Moved(sys', EndFailed(ip, at)) == System(after, 0, wrong + 1, Moved(sys', EndFailed(ip, at)).starts);
    } else {
      assert Metered(System(after, 0, wrong, starts), t0, at, 1);
    }
  }

  predicate Ordered(qs: seq<Request>, from: int) {
    && (forall k | 0 <= k < |qs| :: from <= qs[k].visit.now)
    && (forall j, k | 0 <= j < k < |qs| :: qs[j].visit.now <= qs[k].visit.now)
  }

  lemma {:induction false} RunKeepsCounted(codes: CodeFn, s: Site, qs: seq<Request>, t0: int)
    requires s.limits == NEW_LIMITS && WINDOW < t0 && Ordered(qs, t0)
    ensures Counted(SiteAfter(codes, s, qs), WrongGuesses(codes, s, qs), t0,
      if qs == [] then t0 else qs[|qs| - 1].visit.now)
    decreases |qs|
  {
    if qs == [] {
      assert Metered(NEW_SYSTEM, t0, t0, 1);
    } else {
      var n := |qs| - 1;
      RunKeepsCounted(codes, s, qs[..n], t0);
      hide Login.Serve, WrongGuess, Counted;
      ServeKeepsCounted(codes, SiteAfter(codes, s, qs[..n]), qs[n], WrongGuesses(codes, s, qs[..n]), t0,
        if n == 0 then t0 else qs[n - 1].visit.now);
    }
  }

  /** Served one at a time, the handlers let at most twenty wrong passphrases and
      codes through for each started window, from however many addresses and
      through whichever of the forms they come. */
  lemma GuessesBounded(codes: CodeFn, s: Site, qs: seq<Request>, t0: int, T: nat)
    requires s.limits == NEW_LIMITS && WINDOW < t0 && Ordered(qs, t0)
    requires forall k | 0 <= k < |qs| :: qs[k].visit.now <= t0 + T
    ensures WrongGuesses(codes, s, qs) <= 20 * (1 + T / (10 * MINUTE))
  {
    RunKeepsCounted(codes, s, qs, t0);
    var now := if qs == [] then t0 else qs[|qs| - 1].visit.now;
    var limits, wrong := SiteAfter(codes, s, qs).limits, WrongGuesses(codes, s, qs);
    var starts: nat :| Metered(System(limits, 0, wrong, starts), t0, now, 1);
    MetersBound(System(limits, 0, wrong, starts), t0, T, 1);
  }
}
