/** The login handlers as they run, over the session map, the limiter and the vault. */
module Server {
  import opened Common
  import opened Memory
  import opened Sealing
  import opened Totp
  import opened Login
  import Limiting
  import Sessions
  import Tables
  import Vault
  import VaultSpec

  lemma UnlockServed(codes: CodeFn, s: Site, v: Visit, passphrase: Bytes)
    ensures Serve(codes, s, Request.PostUnlock(v, passphrase)) ==
      if Admitted(s, v) then AnswerUnlock(Entered(s, v), v, passphrase) else (Entered(s, v), Forbidden)
  {
    hide Admitted, Entered, AnswerUnlock;
  }

  lemma CodeServed(codes: CodeFn, s: Site, v: Visit, code: string, clock: Clock)
    ensures Serve(codes, s, Request.PostCode(v, code, clock)) ==
      if !Admitted(s, v) then (Entered(s, v), Forbidden)
      else if Now(s, v).value.dek.None? || !Now(s, v).value.pending then (Entered(s, v), Redirected)
      else AnswerCode(codes, Entered(s, v), v, Now(s, v).value.dek.value, code, clock)
  {
    hide Now, Entered, AnswerCode;
  }

  lemma LockServed(codes: CodeFn, s: Site, v: Visit)
    ensures Serve(codes, s, Request.PostLock(v)) ==
      if !Admitted(s, v) then (Entered(s, v), Forbidden)
      else (Entered(s, v).(views := Entered(s, v).views - {v.cookie}), LoggedOut)
  {
    hide Admitted, Entered;
  }

  class Handlers {
    const sessions: Sessions.Sessions
    const limiter: Limiting.Limiter
    const vault: Vault.Service
    const codes: CodeFn

    constructor (sessions: Sessions.Sessions, limiter: Limiting.Limiter, vault: Vault.Service, codes: CodeFn)
      ensures this.sessions == sessions && this.limiter == limiter && this.vault == vault && this.codes == codes
    {
      this.sessions, this.limiter, this.vault, this.codes := sessions, limiter, vault, codes;
    }

    ghost function View(): Site
      reads sessions, limiter, vault.db
    {
      Site(sessions.book.views, sessions.book.issued, limiter.State(), vault.db.State(), sessions.idle, sessions.max)
    }

    /** What stands before every handler: the session of the cookie, if it is live. */
    method Enter(v: Visit) returns (sess: Sessions.Session?)
      requires sessions.Valid()
      modifies sessions, sessions.m.Values, sessions.book.buffers
      ensures sessions.Valid() && View() == Entered(old(View()), v)
      ensures sessions.m.Values <= old(sessions.m.Values)
      ensures sessions.book.buffers == old(sessions.book.buffers) && sessions.book.issued == old(sessions.book.issued)
      ensures sess == null <==> Now(old(View()), v).None?
      ensures sess != null ==>
        v.cookie in sessions.m && sess == sessions.m[v.cookie] && sess.Shows(Now(old(View()), v).value)
      ensures sess != null ==> sess.Unlocked() == Now(old(View()), v).value.Unlocked()
      ensures sess != null ==> v.cookie in old(sessions.m) && sess.dek == old(sessions.m[v.cookie].dek)
    {
      sess := sessions.Get(v.cookie, v.now);
    }

    /** The same for a state-changing request, which also needs the session's token and
        must not come from elsewhere. */
    method Admit(v: Visit) returns (sess: Sessions.Session?)
      requires sessions.Valid()
      modifies sessions, sessions.m.Values, sessions.book.buffers
      ensures sessions.Valid() && View() == Entered(old(View()), v)
      ensures sessions.m.Values <= old(sessions.m.Values)
      ensures sessions.book.buffers == old(sessions.book.buffers) && sessions.book.issued == old(sessions.book.issued)
      ensures sess != null <==> Admitted(old(View()), v)
      ensures sess != null ==>
        v.cookie in sessions.m && sess == sessions.m[v.cookie] && sess.Shows(Now(old(View()), v).value)
      ensures sess != null ==> sess.Unlocked() == Now(old(View()), v).value.Unlocked()
      ensures sess != null ==> v.cookie in old(sessions.m) && sess.dek == old(sessions.m[v.cookie].dek)
    {
      sess := Enter(v);
      if sess != null && (!v.sameOrigin || sess.csrf != v.token) {
        return null;
      }
    }

    /** The wait imposed on an attempt, if any. */
    method Throttle(v: Visit) returns (wait: Option<int>)
      ensures wait == if Limiting.AllowedAt(limiter.State(), v.ip, v.now) then None
        else Some(Limiting.WaitAt(limiter.State(), v.ip, v.now))
    {
      var allowed := limiter.Allowed(v.ip, v.now);
      if allowed {
        return None;
      }
      var d := limiter.RetryAfter(v.ip, v.now);
      return Some(d);
    }

    method Fail(v: Visit)
      modifies limiter
      ensures View() == old(View()).(limits := Limiting.AfterFail(old(View()).limits, v.ip, v.now))
    {
      limiter.Fail(v.ip, v.now);
    }

    method Reset(v: Visit)
      modifies limiter
      ensures View() == old(View()).(limits := Limiting.AfterReset(old(View()).limits, v.ip))
    {
      limiter.Reset(v.ip);
    }

    method Preauth(sess: Sessions.Session?, v: Visit)
      requires sessions.Valid() && v.newId !in sessions.book.issued
      modifies sessions
      ensures sessions.Valid()
      ensures View() == if sess != null then old(View()) else old(View()).(
        views := Sessions.Put(old(View()).views, v.newId, None, v.newCsrf, false, v.now),
        issued := old(View()).issued + {v.newId})
    {
      if sess == null {
        var _ := sessions.New(null, false, v.newId, v.newCsrf, v.now);
      }
    }

    /** Ends the current session and starts one that holds the key. */
    method Replace(v: Visit, dek: array<byte>, pending: bool)
      requires sessions.Valid() && v.newId !in sessions.book.issued && dek !in sessions.book.buffers
      modifies sessions, sessions.book.buffers
      ensures sessions.Valid() && dek[..] == old(dek[..])
      ensures View() == Replaced(old(View()), v, dek[..], pending)
    {
      sessions.Delete(v.cookie);
      var _ := sessions.New(dek, pending, v.newId, v.newCsrf, v.now);
    }

    method Drop(v: Visit)
      requires sessions.Valid()
      modifies sessions, sessions.book.buffers
      ensures sessions.Valid() && View() == old(View()).(views := old(View()).views - {v.cookie})
      ensures v.cookie in old(sessions.m) && old(sessions.m[v.cookie].dek) != null ==>
        IsZero(old(sessions.m[v.cookie].dek))
    {
      sessions.Delete(v.cookie);
    }

    /** The pending session of the cookie becomes an unlocked one. */
    method Promote(v: Visit)
      requires sessions.Valid() && v.newId !in sessions.book.issued && v.cookie in sessions.m
      modifies sessions, sessions.m.Values
      ensures sessions.Valid()
      ensures View() == old(View()).(
        views := Sessions.Promoted(old(View()).views, v.cookie, v.newId, v.newCsrf, v.now),
        issued := old(View()).issued + {v.newId})
    {
      var _ := sessions.Promote(v.cookie, v.newId, v.newCsrf, v.now);
    }

    /** The session of the cookie goes on with another key. */
    method TakeKey(v: Visit, dek: array<byte>)
      requires sessions.Valid() && dek !in sessions.book.buffers
      modifies sessions, sessions.m.Values, sessions.book.buffers
      ensures sessions.Valid() && dek[..] == old(dek[..])
      ensures View() == old(View()).(views := Sessions.WithKey(old(View()).views, v.cookie, dek[..]))
    {
      sessions.SetDek(v.cookie, dek);
    }

    method GetSetup(v: Visit) returns (reply: Reply)
      requires sessions.Valid() && v.newId !in sessions.book.issued
      modifies sessions, sessions.m.Values, sessions.book.buffers
      ensures sessions.Valid()
      ensures (View(), reply) == Serve(codes, old(View()), Request.GetSetup(v))
    {
      hide Sessions.Sessions.Valid, Sessions.Session.Shows, Sessions.Session.Unlocked, Now, Entered;
      hide Admitted, Replaced, Sessions.Put, Sessions.Promoted, Sessions.WithKey;
      var sess := Enter(v);
      if vault.db.vault.Some? {
        return Redirected;
      }
      Preauth(sess, v);
      return Sent;
    }

    method GetUnlock(v: Visit) returns (reply: Reply)
      requires sessions.Valid() && v.newId !in sessions.book.issued
      modifies sessions, sessions.m.Values, sessions.book.buffers
      ensures sessions.Valid()
      ensures (View(), reply) == Serve(codes, old(View()), Request.GetUnlock(v))
    {
      hide Sessions.Sessions.Valid, Sessions.Session.Shows, Sessions.Session.Unlocked, Sessions.View.Unlocked, Now;
      hide Entered, Admitted, Replaced, Sessions.Put, Sessions.Promoted, Sessions.WithKey;
      var sess := Enter(v);
      if vault.db.vault.None? || (sess != null && sess.Unlocked()) {
        return Redirected;
      }
      Preauth(sess, v);
      return Sent;
    }

    method PostSetup(v: Visit, passphrase: Bytes, confirm: Bytes, runes: nat, salt: Bytes, dek: Dek, nonce: Bytes)
      returns (reply: Reply)
      requires sessions.Valid() && v.newId !in sessions.book.issued
      modifies sessions, sessions.m.Values, sessions.book.buffers, vault.db
      ensures sessions.Valid()
      ensures (View(), reply) ==
        Serve(codes, old(View()), Request.PostSetup(v, passphrase, confirm, runes, vault.Params(salt), dek, nonce))
    {
      hide Sessions.Sessions.Valid, Sessions.Session.Shows, Sessions.Session.Unlocked, Now, Entered;
      hide Admitted, Replaced, Sessions.Put, Sessions.Promoted, Sessions.WithKey;
      hide VaultSpec.Setup;
      var sess := Admit(v);
      if sess == null {
        return Forbidden;
      }
      if runes < MIN_PASSPHRASE || passphrase != confirm {
        return Sent;
      }
      var key := vault.Setup(passphrase, salt, dek, nonce);
      if key.Err? {
        return if key.error.AlreadyInit? then Redirected else Sent;
      }
      Replace(v, key.value, false);
      return LoggedIn(v.newId);
    }

    method TryUnlock(v: Visit, passphrase: Bytes) returns (reply: Reply)
      requires sessions.Valid() && v.newId !in sessions.book.issued
      modifies sessions, sessions.book.buffers, limiter
      ensures sessions.Valid()
      ensures (View(), reply) == AnswerUnlock(old(View()), v, passphrase)
    {
      hide Sessions.Sessions.Valid, Replaced, Sessions.Promoted, Sessions.WithKey;
      hide VaultSpec.Unlock, VaultSpec.TotpEnabled, Limiting.AllowedAt, Limiting.WaitAt, Limiting.AfterFail,
        Limiting.AfterReset;
      var wait := Throttle(v);
      if wait.Some? {
        return Throttled(wait.value);
      }
      var key := vault.Unlock(passphrase);
      if key == Err(NotInit) {
        return Redirected;
      }
      if key.Err? {
        Fail(v);
        return Sent;
      }
      var enabled := vault.TotpEnabled();
      if enabled == Ok(true) {
        Replace(v, key.value, true);
        return AwaitCode(v.newId);
      }
      Reset(v);
      Replace(v, key.value, false);
      return LoggedIn(v.newId);
    }

    method PostUnlock(v: Visit, passphrase: Bytes) returns (reply: Reply)
      requires sessions.Valid() && v.newId !in sessions.book.issued
      modifies sessions, sessions.m.Values, sessions.book.buffers, limiter
      ensures sessions.Valid()
      ensures (View(), reply) == Serve(codes, old(View()), Request.PostUnlock(v, passphrase))
    {
      hide Sessions.Sessions.Valid, Sessions.Session.Shows, Sessions.Session.Unlocked, Now, Entered;
      hide Admitted, Replaced, Sessions.Put, Sessions.Promoted, Sessions.WithKey, AnswerUnlock;
      UnlockServed(codes, View(), v, passphrase);
      hide Serve;
      var sess := Admit(v);
      if sess == null {
        return Forbidden;
      }
      reply := TryUnlock(v, passphrase);
    }

    method TryCode(v: Visit, sess: Sessions.Session, code: string, clock: Clock) returns (reply: Reply)
      requires sessions.Valid() && v.newId !in sessions.book.issued && v.cookie in sessions.m && sess.dek != null
      modifies sessions, sessions.m.Values, limiter, vault.db
      ensures sessions.Valid()
      ensures (View(), reply) == AnswerCode(codes, old(View()), v, old(sess.dek[..]), code, clock)
    {
      hide Sessions.Sessions.Valid, Replaced, Sessions.Promoted, Sessions.WithKey;
      hide VaultSpec.VerifyLoginTotp, Limiting.AllowedAt, Limiting.WaitAt, Limiting.AfterFail, Limiting.AfterReset;
      var wait := Throttle(v);
      if wait.Some? {
        return Throttled(wait.value);
      }
      var ok := vault.VerifyLoginTotp(codes, sess.dek[..], code, clock);
      if ok != Ok(true) {
        Fail(v);
        return Sent;
      }
      Reset(v);
      Promote(v);
      return LoggedIn(v.newId);
    }

    method PostCode(v: Visit, code: string, clock: Clock) returns (reply: Reply)
      requires sessions.Valid() && v.newId !in sessions.book.issued
      modifies sessions, sessions.m.Values, sessions.book.buffers, limiter, vault.db
      ensures sessions.Valid()
      ensures (View(), reply) == Serve(codes, old(View()), Request.PostCode(v, code, clock))
    {
      hide Sessions.Sessions.Valid, Now, Entered, Admitted;
      hide Replaced, Sessions.Put, Sessions.Promoted, Sessions.WithKey, AnswerCode;
      CodeServed(codes, View(), v, code, clock);
      hide Serve;
      var sess := Admit(v);
      if sess == null {
        return Forbidden;
      }
      if sess.dek == null || !sess.pending {
        return Redirected;
      }
      reply := TryCode(v, sess, code, clock);
    }

    method PostLock(v: Visit) returns (reply: Reply)
      requires sessions.Valid()
      modifies sessions, sessions.m.Values, sessions.book.buffers
      ensures sessions.Valid()
      ensures reply == LoggedOut ==> v.cookie in old(sessions.m)
      ensures reply == LoggedOut && old(sessions.m[v.cookie].dek) != null ==> IsZero(old(sessions.m[v.cookie].dek))
      ensures (View(), reply) == Serve(codes, old(View()), Request.PostLock(v))
    {
      hide Sessions.Sessions.Valid, Sessions.Session.Shows, Sessions.Session.Unlocked, Now, Entered;
      hide Admitted, Replaced, Sessions.Put, Sessions.Promoted, Sessions.WithKey;
      LockServed(codes, View(), v);
      hide Serve;
      var sess := Admit(v);
      if sess == null {
        return Forbidden;
      }
      Drop(v);
      return LoggedOut;
    }

    method TryRekey(v: Visit, passphrase: Bytes, salt: Bytes, nonce: Bytes, dek: Dek, nonces: Tables.Cell -> Bytes)
      returns (reply: Reply)
      requires sessions.Valid()
      modifies sessions, sessions.m.Values, sessions.book.buffers, limiter, vault.db
      ensures sessions.Valid()
      ensures (View(), reply) == AnswerRekey(old(View()), v, passphrase, vault.Params(salt), nonce, dek, nonces)
    {
      hide Sessions.Sessions.Valid, Replaced, Sessions.Promoted, Sessions.WithKey;
      hide VaultSpec.Rekey, Limiting.AllowedAt, Limiting.WaitAt, Limiting.AfterFail, Limiting.AfterReset;
      var wait := Throttle(v);
      if wait.Some? {
        return Throttled(wait.value);
      }
      var key := vault.Rekey(passphrase, salt, nonce, dek, nonces);
      if key.Err? {
        Fail(v);
        return Sent;
      }
      Reset(v);
      TakeKey(v, key.value);
      return Sent;
    }

    method PostRekey(v: Visit, passphrase: Bytes, salt: Bytes, nonce: Bytes, dek: Dek, nonces: Tables.Cell -> Bytes)
      returns (reply: Reply)
      requires sessions.Valid()
      modifies sessions, sessions.m.Values, sessions.book.buffers, limiter, vault.db
      ensures sessions.Valid()
      ensures (View(), reply) ==
        Serve(codes, old(View()), Request.PostRekey(v, passphrase, vault.Params(salt), nonce, dek, nonces))
    {
      hide Sessions.Sessions.Valid, Sessions.Session.Shows, Sessions.Session.Unlocked, Sessions.View.Unlocked, Now,
        Entered;
      hide Admitted, Replaced, Sessions.Put, Sessions.Promoted, Sessions.WithKey, AnswerRekey;
      var sess := Admit(v);
      if sess == null {
        return Forbidden;
      }
      if !sess.Unlocked() {
        return Redirected;
      }
      reply := TryRekey(v, passphrase, salt, nonce, dek, nonces);
    }

    method TryPassphrase(v: Visit, current: Bytes, passphrase: Bytes, confirm: Bytes, runes: nat,
        salt: Bytes, nonce: Bytes)
      returns (reply: Reply)
      modifies limiter, vault.db
      ensures (View(), reply) ==
        AnswerPassphrase(old(View()), v, current, passphrase, confirm, runes, vault.Params(salt), nonce)
    {
      hide VaultSpec.Unlock, VaultSpec.ChangePassphrase, Limiting.AllowedAt;
      hide Limiting.WaitAt, Limiting.AfterFail, Limiting.AfterReset;
      var wait := Throttle(v);
      if wait.Some? {
        return Throttled(wait.value);
      }
      if runes < MIN_PASSPHRASE || passphrase != confirm {
        return Sent;
      }
      var key := vault.Unlock(current);
      if key.Err? {
        Fail(v);
        return Sent;
      }
      Reset(v);
      var _ := vault.ChangePassphrase(key.value[..], passphrase, salt, nonce);
      Zero(key.value);
      return Sent;
    }

    method PostPassphrase(v: Visit, current: Bytes, passphrase: Bytes, confirm: Bytes, runes: nat,
        salt: Bytes, nonce: Bytes)
      returns (reply: Reply)
      requires sessions.Valid()
      modifies sessions, sessions.m.Values, sessions.book.buffers, limiter, vault.db
      ensures sessions.Valid()
      ensures (View(), reply) ==
        Serve(codes, old(View()),
          Request.PostPassphrase(v, current, passphrase, confirm, runes, vault.Params(salt), nonce))
    {
      hide Sessions.Sessions.Valid, Sessions.Session.Shows, Sessions.Session.Unlocked, Sessions.View.Unlocked;
      hide Now, Entered, Admitted, AnswerPassphrase;
      var sess := Admit(v);
      if sess == null {
        return Forbidden;
      }
      if !sess.Unlocked() {
        return Redirected;
      }
      reply := TryPassphrase(v, current, passphrase, confirm, runes, salt, nonce);
    }

    /** One tick of the sweeper. */
    method Sweep(v: Visit) returns (reply: Reply)
      requires sessions.Valid()
      modifies sessions, sessions.book.buffers, limiter
      ensures sessions.Valid()
      ensures (View(), reply) == Serve(codes, old(View()), Request.Tidy(v))
    {
      hide Sessions.Sessions.Valid, Now, Entered, Admitted, Replaced, Sessions.Put, Sessions.Promoted, Sessions.WithKey;
      sessions.EvictExpired(v.now);
      limiter.Sweep(v.now);
      return Sent;
    }
  }
}
