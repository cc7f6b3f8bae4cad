/** What each request does, told by sessions, passphrases and buckets. */
module HandlerLaws {
  import opened Common
  import opened Login
  import opened Sealing
  import opened Sessions
  import opened Totp
  import opened VaultSpec
  import Lifecycle
  import Limiting
  import Tables

  // ---- who may ask ----

  /** The cookie names a session that has not timed out: a pending one after two minutes. */
  predicate Live(s: Site, v: Visit) {
    && v.cookie != "" && v.cookie in s.views
    && var w := s.views[v.cookie];
      if w.pending then v.now - w.created <= 120_000_000_000
      else v.now - w.lastSeen <= s.idle && v.now - w.created <= s.max
  }

  predicate MayPost(s: Site, v: Visit) {
    v.sameOrigin && Live(s, v) && s.views[v.cookie].csrf == v.token
  }

  predicate IsPost(q: Request) {
    q.PostSetup? || q.PostUnlock? || q.PostCode? || q.PostLock? || q.PostRekey? || q.PostPassphrase?
  }

  predicate IsUnlocked(s: Site, v: Visit)
    requires v.cookie in s.views
  {
    s.views[v.cookie].dek.Some? && !s.views[v.cookie].pending
  }

  /** No session but the visitor's is touched, and the visitor's is at most renewed or,
      when it has timed out, removed. */
  predicate AtMostRenewed(s: Site, s': Site, v: Visit) {
    && s'.issued == s.issued && s'.idle == s.idle && s'.max == s.max && s'.views.Keys <= s.views.Keys
    && (forall id | id in s.views && id != v.cookie :: id in s'.views && s'.views[id] == s.views[id])
    && (Live(s, v) ==> Renewed(s, s', v))
  }

  predicate Renewed(s: Site, s': Site, v: Visit)
    requires v.cookie in s.views
  {
    v.cookie in s'.views && s'.views[v.cookie] ==
      if s.views[v.cookie].pending then s.views[v.cookie] else s.views[v.cookie].(lastSeen := v.now)
  }

  /** The visitor's session is gone and the new one stands, the others as they were. */
  predicate Exchanged(s: Site, s': Site, v: Visit, made: View) {
    && s'.views == (s.views - {v.cookie})[v.newId := made] && v.cookie !in s'.views
    && s'.issued == s.issued + {v.newId} && s'.idle == s.idle && s'.max == s.max
  }

  /** Tokens are new, and ids in the map were given out before. */
  predicate Fresh(s: Site, q: Request) {
    q.visit.newId !in s.issued && s.views.Keys <= s.issued
  }

  lemma LookupIs(s: Site, v: Visit)
    ensures Now(s, v).Some? <==> Live(s, v)
    ensures Admitted(s, v) <==> MayPost(s, v)
    ensures MayPost(s, v) ==> Live(s, v) && v.cookie in s.views && v.cookie in Entered(s, v).views
    ensures Live(s, v) ==>
      Now(s, v) == Some(if s.views[v.cookie].pending then s.views[v.cookie] else s.views[v.cookie].(lastSeen := v.now))
    ensures Live(s, v) ==> Entered(s, v).views == s.views[v.cookie := Now(s, v).value]
    ensures AtMostRenewed(s, Entered(s, v), v) && Entered(s, v).st == s.st && Entered(s, v).limits == s.limits
    ensures v.cookie == "" || Live(s, v) || v.cookie !in Entered(s, v).views
  {
  }

  /** A post goes on exactly if it comes from a live session with its token, and not from
      another origin; else nothing changes. */
  lemma PostsAreGuarded(codes: CodeFn, s: Site, q: Request)
    requires IsPost(q)
    ensures var (s', reply) := Serve(codes, s, q);
      && (reply == Forbidden <==> !MayPost(s, q.visit))
      && (reply == Forbidden ==> s'.st == s.st && s'.limits == s.limits && AtMostRenewed(s, s', q.visit))
  {
    LookupIs(s, q.visit);
    hide Now, Entered, Admitted, Live, MayPost, AtMostRenewed;
    hide Limiting.AllowedAt, Limiting.WaitAt, Limiting.AfterFail, Limiting.AfterReset;
    hide Unlock, VaultSpec.TotpEnabled, VerifyLoginTotp, Rekey, Setup, ChangePassphrase;
  }

  // ---- locking ----

  /** A lock takes the session out of the map, and changes nothing else. */
  lemma LockEnds(codes: CodeFn, s: Site, q: Request)
    requires q.PostLock? && MayPost(s, q.visit)
    ensures var (s', reply) := Serve(codes, s, q);
      && reply == LoggedOut && s'.st == s.st && s'.limits == s.limits && s'.issued == s.issued
      && s'.views == s.views - {q.visit.cookie}
  {
    LookupIs(s, q.visit);
    hide Live;
  }

  /** An id that was given out and is gone from the map never comes back, for every
      session is made under a new one. */
  lemma GoneStaysAway(codes: CodeFn, s: Site, q: Request, id: string)
    requires id !in s.views && id in s.issued && FreshTokens(s, q)
    ensures var s' := Serve(codes, s, q).0; id !in s'.views && id in s'.issued
  {
    hide Limiting.AllowedAt, Limiting.WaitAt, Limiting.AfterFail, Limiting.AfterReset, Limiting.AfterSweep;
    hide Unlock, VaultSpec.TotpEnabled, VerifyLoginTotp, Rekey, Setup, ChangePassphrase;
  }

  lemma {:induction false} GoneForGood(codes: CodeFn, s: Site, qs: seq<Request>, id: string)
    requires id !in s.views && id in s.issued && AllFresh(codes, s, qs)
    ensures id !in SiteAfter(codes, s, qs).views && id in SiteAfter(codes, s, qs).issued
    decreases |qs|
  {
    hide Serve, FreshTokens;
    if qs != [] {
      var n := |qs| - 1;
      assert forall k | 0 <= k < n :: qs[..n][..k] == qs[..k];
      assert FreshTokens(SiteAfter(codes, s, qs[..n]), qs[n]);
      GoneForGood(codes, s, qs[..n], id);
      GoneStaysAway(codes, SiteAfter(codes, s, qs[..n]), qs[n], id);
    }
  }

  /** After a lock the cookie finds no session, whatever is asked from then on. */
  lemma LockedForGood(codes: CodeFn, s: Site, q: Request, qs: seq<Request>, v: Visit)
    requires q.PostLock? && MayPost(s, q.visit) && s.views.Keys <= s.issued
    requires AllFresh(codes, Serve(codes, s, q).0, qs) && v.cookie == q.visit.cookie
    ensures Now(SiteAfter(codes, Serve(codes, s, q).0, qs), v) == None
  {
    LockEnds(codes, s, q);
    hide Serve, AllFresh, SiteAfter, MayPost;
    GoneForGood(codes, Serve(codes, s, q).0, qs, v.cookie);
  }

  // ---- the passphrase change ----

  /** The stored state after a passphrase change: the new passphrase unwraps the key that
      the current one unwrapped, the current one nothing unless it is the same, and
      content and consumed step stand. */
  predicate Rewrapped(st: State, st': State, current: Bytes, passphrase: Bytes, dek: Bytes) {
    && Unlock(st', passphrase) == Ok(dek)
    && (passphrase != current ==> Unlock(st', current) == Err(BadPassphrase))
    && st'.rows == st.rows
    && st.vault.Some? && st'.vault.Some?
    && st'.vault.value.totpLast == st.vault.value.totpLast && st'.vault.value.epoch == st.vault.value.epoch + 1
  }

  /** Exactly a heard request from an unlocked session, with a new passphrase that is long
      enough and given twice and the right current one, changes the passphrase. A wrong
      current one is the only outcome that counts as a failure. */
  lemma PassphraseChanges(codes: CodeFn, s: Site, q: Request)
    requires q.PostPassphrase? && MayPost(s, q.visit)
    ensures var (s', reply) := Serve(codes, s, q); var v := q.visit;
      && AtMostRenewed(s, s', v)
      && if !IsUnlocked(s, v) then reply == Redirected && s'.st == s.st && s'.limits == s.limits
         else if !Limiting.AllowedAt(s.limits, v.ip, v.now) then
           reply.Throttled? && reply.wait > 0 && s'.st == s.st && s'.limits == s.limits
         else if q.runes < 8 || q.passphrase != q.confirm then reply == Sent && s'.st == s.st && s'.limits == s.limits
         else match Unlock(s.st, q.current)
           case Err(_) => reply == Sent && s'.st == s.st && s'.limits == Limiting.AfterFail(s.limits, v.ip, v.now)
           case Ok(dek) =>
             && reply == Sent && Rewrapped(s.st, s'.st, q.current, q.passphrase, dek)
             && Limiting.Forgiven(s.limits, s'.limits, v.ip)
  {
    LookupIs(s, q.visit);
    hide Now, Entered, Admitted, MayPost, Live, Limiting.AfterFail;
  }

  // ---- logging in ----

  /** The passphrase form. Without a second factor the right passphrase exchanges the
      session for an unlocked one with the key and forgives the address; with one, for a
      session that waits for the code, and the address keeps its failures. */
  lemma UnlockAnswers(codes: CodeFn, s: Site, q: Request)
    requires q.PostUnlock? && MayPost(s, q.visit) && Fresh(s, q)
    ensures var (s', reply) := Serve(codes, s, q); var v := q.visit;
      && s'.st == s.st
      && if !Limiting.AllowedAt(s.limits, v.ip, v.now) then
           reply.Throttled? && reply.wait > 0 && s'.limits == s.limits && AtMostRenewed(s, s', v)
         else match Unlock(s.st, q.passphrase)
           case Err(NotInit) => reply == Redirected && s'.limits == s.limits && AtMostRenewed(s, s', v)
           case Err(_) =>
             reply == Sent && s'.limits == Limiting.AfterFail(s.limits, v.ip, v.now) && AtMostRenewed(s, s', v)
           case Ok(dek) =>
             var due := VaultSpec.TotpEnabled(s.st) == Ok(true);
             && reply == (if due then AwaitCode(v.newId) else LoggedIn(v.newId))
             && Exchanged(s, s', v, Sess(Some(dek), v.newCsrf, due, v.now, v.now))
             && if due then s'.limits == s.limits else Limiting.Forgiven(s.limits, s'.limits, v.ip)
  {
    LookupIs(s, q.visit);
    assert (s.views - {q.visit.cookie}) == Entered(s, q.visit).views - {q.visit.cookie} by {
      RenewalAside(s, q.visit);
    }
    hide Now, Entered, Admitted, MayPost, Live, Unlock, VaultSpec.TotpEnabled, Limiting.AfterFail;
  }

  /** Renewing a session that then goes makes no difference. */
  lemma RenewalAside(s: Site, v: Visit)
    ensures s.views - {v.cookie} == Entered(s, v).views - {v.cookie}
  {
  }

  /** The code form, for a session that waits for its code. An accepted code promotes the
      session under a new id, with the key it held, and forgives the address. */
  lemma CodeAnswers(codes: CodeFn, s: Site, q: Request)
    requires q.PostCode? && MayPost(s, q.visit) && Fresh(s, q)
    ensures var (s', reply) := Serve(codes, s, q); var v := q.visit; var w := s.views[v.cookie];
      if !w.pending || w.dek.None? then
        reply == Redirected && s'.st == s.st && s'.limits == s.limits && AtMostRenewed(s, s', v)
      else if !Limiting.AllowedAt(s.limits, v.ip, v.now) then
        reply.Throttled? && reply.wait > 0 && s'.st == s.st && s'.limits == s.limits && AtMostRenewed(s, s', v)
      else
        var (st, r) := VerifyLoginTotp(s.st, codes, w.dek.value, q.code, q.clock);
        && s'.st == st
        && if r == Ok(true) then
             && reply == LoggedIn(v.newId) && Limiting.Forgiven(s.limits, s'.limits, v.ip)
             && Exchanged(s, s', v, Sess(w.dek, v.newCsrf, false, v.now, v.now))
           else
             reply == Sent && s'.limits == Limiting.AfterFail(s.limits, v.ip, v.now) && AtMostRenewed(s, s', v)
  {
    LookupIs(s, q.visit);
    RenewalAside(s, q.visit);
    hide Now, Entered, Admitted, MayPost, Live, VerifyLoginTotp, Limiting.AfterFail;
  }

  /** The setup form: a long enough passphrase given twice sets up a vault where there is
      none, and leaves an unlocked session with its key. */
  lemma SetupAnswers(codes: CodeFn, s: Site, q: Request)
    requires q.PostSetup? && MayPost(s, q.visit) && Fresh(s, q)
    ensures var (s', reply) := Serve(codes, s, q); var v := q.visit;
      && s'.limits == s.limits
      && if q.runes < 8 || q.passphrase != q.confirm then reply == Sent && s'.st == s.st && AtMostRenewed(s, s', v)
         else if s.st.vault.Some? then reply == Redirected && s'.st == s.st && AtMostRenewed(s, s', v)
         else if s.st.rows.projects != map[] then reply == Sent && s'.st == s.st && AtMostRenewed(s, s', v)
         else
           && reply == LoggedIn(v.newId) && Unlock(s'.st, q.passphrase) == Ok(q.dek)
           && Exchanged(s, s', v, Sess(Some(q.dek), v.newCsrf, false, v.now, v.now))
  {
    LookupIs(s, q.visit);
    RenewalAside(s, q.visit);
    hide Now, Entered, Admitted, MayPost, Live;
  }

  // ---- rekeying ----

  /** The rekey form of an unlocked session: a rekey that succeeds puts its new key into
      force, gives it to the asking session, and forgives the address. */
  lemma RekeyAnswers(codes: CodeFn, s: Site, q: Request)
    requires q.PostRekey? && MayPost(s, q.visit)
    ensures var (s', reply) := Serve(codes, s, q); var v := q.visit;
      if !IsUnlocked(s, v) then
        reply == Redirected && s'.st == s.st && s'.limits == s.limits && AtMostRenewed(s, s', v)
      else if !Limiting.AllowedAt(s.limits, v.ip, v.now) then
        reply.Throttled? && reply.wait > 0 && s'.st == s.st && s'.limits == s.limits && AtMostRenewed(s, s', v)
      else
        var (st, r) := Rekey(s.st, q.passphrase, q.params, q.nonce, q.dek, q.nonces);
        && reply == Sent && s'.st == st
        && if r.Err? then
             s'.limits == Limiting.AfterFail(s.limits, v.ip, v.now) && AtMostRenewed(s, s', v)
           else
             && Unlock(s'.st, q.passphrase) == Ok(q.dek) && Limiting.Forgiven(s.limits, s'.limits, v.ip)
             && s'.views == s.views[v.cookie := s.views[v.cookie].(dek := Some(q.dek), lastSeen := v.now)]
             && s'.issued == s.issued
  {
    LookupIs(s, q.visit);
    RekeyUnlocks(s.st, q);
    if Live(s, q.visit) {
      KeyGiven(s.views, q.visit.cookie, Now(s, q.visit).value, q.dek);
    }
    hide WithKey, Limiting.AllowedAt, Limiting.WaitAt, Limiting.AfterReset, AtMostRenewed;
    assert Limiting.Forgiven(s.limits, Limiting.AfterReset(s.limits, q.visit.ip), q.visit.ip) by {
      Limiting.ResetForgives(s.limits, q.visit.ip, q.visit.now);
    }
    hide Now, Entered, Admitted, MayPost, Live, Rekey, Unlock, Limiting.AfterFail;
  }

  lemma KeyGiven(views: Views, id: string, renewed: View, dek: Bytes)
    requires id in views
    ensures WithKey(views[id := renewed], id, dek) == views[id := renewed.(dek := Some(dek))]
  {
  }

  lemma RekeyUnlocks(st: State, q: Request)
    requires q.PostRekey?
    ensures var (st', r) := Rekey(st, q.passphrase, q.params, q.nonce, q.dek, q.nonces);
      r.Ok? ==> r == Ok(q.dek) && Unlock(st', q.passphrase) == Ok(q.dek)
  {
    hide AllTransform, Tables.Recode;
  }

  // ---- visits and the sweeper ----

  /** A visit to either form gives a visitor without a session one that holds no key, and
      never touches the store or the limiter. Setup is closed once there is a vault, and
      unlocking while there is none or the session is unlocked. */
  lemma VisitAnswers(codes: CodeFn, s: Site, q: Request)
    requires (q.GetSetup? || q.GetUnlock?) && Fresh(s, q)
    ensures var (s', reply) := Serve(codes, s, q); var v := q.visit;
      var closed := if q.GetSetup? then s.st.vault.Some? else s.st.vault.None? || (Live(s, v) && IsUnlocked(s, v));
      && s'.st == s.st && s'.limits == s.limits && reply == (if closed then Redirected else Sent)
      && if closed || Live(s, v) then AtMostRenewed(s, s', v)
         else
           && v.newId in s'.views && s'.views[v.newId] == Sess(None, v.newCsrf, false, v.now, v.now)
           && s'.issued == s.issued + {v.newId}
           && s'.views.Keys <= s.views.Keys + {v.newId}
           && forall id | id in s.views && id != v.cookie :: id in s'.views && s'.views[id] == s.views[id]
  {
    LookupIs(s, q.visit);
    hide Entered, Live;
  }

  /** The sweeper takes exactly the sessions that have timed out and the buckets that are
      neither locked nor within their window. */
  lemma SweepAnswers(codes: CodeFn, s: Site, q: Request)
    requires q.Tidy?
    ensures var s', now := Serve(codes, s, q).0, q.visit.now;
      && s'.st == s.st && s'.issued == s.issued && s'.limits.global == s.limits.global
      && (forall id :: id in s'.views <==> id in s.views && StillIn(s, id, now))
      && (forall id | id in s'.views :: s'.views[id] == s.views[id])
      && (forall ip :: ip in s'.limits.perIP <==> ip in s.limits.perIP && Counting(s.limits.perIP[ip], now))
      && (forall ip | ip in s'.limits.perIP :: s'.limits.perIP[ip] == s.limits.perIP[ip])
  {
  }

  predicate StillIn(s: Site, id: string, now: int)
    requires id in s.views
  {
    var w := s.views[id];
    if w.pending then now - w.created <= 120_000_000_000 else now - w.lastSeen <= s.idle && now - w.created <= s.max
  }

  predicate Counting(b: Limiting.Bucket, now: int) {
    now <= b.until || now - b.first <= Limiting.WINDOW
  }
}
