/** The login handlers: what each request does to sessions, limiter and vault, and
    what every unlocked session owes its key to. */
module Login {
  import opened Common
  import opened Memory
  import opened Aead
  import opened Sealing
  import opened Totp
  import opened VaultSpec
  import opened Sessions
  import opened Vault
  import Lifecycle
  import Limiting
  import Tables

  const MIN_PASSPHRASE := 8

  /** The parts of the running program a handler touches. */
  datatype Site = Site(views: Views, issued: set<string>, limits: Limiting.Limits, st: State, idle: int, max: int)

  /** What every request brings: its cookie, its synchronizer token, whether its origin
      is absent, opaque or this host, its throttling address, the time, and the tokens
      that would be drawn while serving it. */
  datatype Visit = Visit(
    cookie: string, token: string, sameOrigin: bool, ip: string, now: int, newId: string, newCsrf: string)

  datatype Request =
    | GetSetup(visit: Visit)
    | GetUnlock(visit: Visit)
    | PostSetup(visit: Visit, passphrase: Bytes, confirm: Bytes, runes: nat, params: KdfParams, dek: Dek, nonce: Bytes)
    | PostUnlock(visit: Visit, passphrase: Bytes)
    | PostCode(visit: Visit, code: string, clock: Clock)
    | PostLock(visit: Visit)
    | PostRekey(visit: Visit, passphrase: Bytes, params: KdfParams, nonce: Bytes, dek: Dek,
                nonces: Tables.Cell -> Bytes)
    | PostPassphrase(visit: Visit, current: Bytes, passphrase: Bytes, confirm: Bytes, runes: nat, params: KdfParams,
                     nonce: Bytes)
    | Tidy(visit: Visit)
    | Elsewhere(visit: Visit, store: State)  // any other change of the store

  datatype Reply =
    | Forbidden
    | Throttled(wait: int)
    | Sent
    | Redirected
    | AwaitCode(id: string)
    | LoggedIn(id: string)
    | LoggedOut

  function Now(s: Site, v: Visit): Option<View> {
    Look(s.views, s.idle, s.max, v.cookie, v.now)
  }

  /** The session lookup that precedes every handler. */
  function Entered(s: Site, v: Visit): Site {
    s.(views := AfterLook(s.views, s.idle, s.max, v.cookie, v.now))
  }

  /** A state-changing request needs a live session, its token and no foreign origin. */
  predicate Admitted(s: Site, v: Visit) {
    v.sameOrigin && Now(s, v).Some? && Now(s, v).value.csrf == v.token
  }

  /** The current session goes, a new one with the key comes. */
  function Replaced(s: Site, v: Visit, dek: Bytes, pending: bool): Site {
    s.(views := Put(s.views - {v.cookie}, v.newId, Some(dek), v.newCsrf, pending, v.now),
       issued := s.issued + {v.newId})
  }

  /** A visitor without a session gets one without a key, so that the login form
      can carry a token. */
  function Welcomed(s0: Site, s: Site, v: Visit): Site {
    if Now(s0, v).Some? then s
    else s.(views := Put(s.views, v.newId, None, v.newCsrf, false, v.now), issued := s.issued + {v.newId})
  }

  // ---- the throttled attempts, once admitted ----

  function AnswerUnlock(s: Site, v: Visit, passphrase: Bytes): (Site, Reply) {
    if !Limiting.AllowedAt(s.limits, v.ip, v.now) then (s, Throttled(Limiting.WaitAt(s.limits, v.ip, v.now)))
    else
      match VaultSpec.Unlock(s.st, passphrase)
      case Err(e) =>
        if e.NotInit? then (s, Redirected) else (s.(limits := Limiting.AfterFail(s.limits, v.ip, v.now)), Sent)
      case Ok(dek) =>
        if VaultSpec.TotpEnabled(s.st) == Ok(true) then (Replaced(s, v, dek, true), AwaitCode(v.newId))
        else (Replaced(s.(limits := Limiting.AfterReset(s.limits, v.ip)), v, dek, false), LoggedIn(v.newId))
  }

  /** `dek` is the key of the pending session. */
  function AnswerCode(codes: CodeFn, s: Site, v: Visit, dek: Bytes, code: string, clock: Clock): (Site, Reply) {
    if !Limiting.AllowedAt(s.limits, v.ip, v.now) then (s, Throttled(Limiting.WaitAt(s.limits, v.ip, v.now)))
    else
      var (st, r) := VaultSpec.VerifyLoginTotp(s.st, codes, dek, code, clock);
      if r != Ok(true) then (s.(st := st, limits := Limiting.AfterFail(s.limits, v.ip, v.now)), Sent)
      else
        (s.(st := st, limits := Limiting.AfterReset(s.limits, v.ip),
            views := Promoted(s.views, v.cookie, v.newId, v.newCsrf, v.now), issued := s.issued + {v.newId}),
         LoggedIn(v.newId))
  }

  ghost function AnswerRekey(s: Site, v: Visit, passphrase: Bytes, params: KdfParams, nonce: Bytes, dek: Dek,
      nonces: Tables.Cell -> Bytes)
    : (Site, Reply)
  {
    if !Limiting.AllowedAt(s.limits, v.ip, v.now) then (s, Throttled(Limiting.WaitAt(s.limits, v.ip, v.now)))
    else
      var (st, r) := VaultSpec.Rekey(s.st, passphrase, params, nonce, dek, nonces);
      if r.Err? then (s.(st := st, limits := Limiting.AfterFail(s.limits, v.ip, v.now)), Sent)
      else
        var limits := Limiting.AfterReset(s.limits, v.ip);
        (s.(st := st, limits := limits, views := WithKey(s.views, v.cookie, r.value)), Sent)
  }

  /** The wrap is redone with the key the current passphrase yields, never with the
      session's. */
  function AnswerPassphrase(s: Site, v: Visit, current: Bytes, passphrase: Bytes, confirm: Bytes, runes: nat,
      params: KdfParams, nonce: Bytes)
    : (Site, Reply)
  {
    if !Limiting.AllowedAt(s.limits, v.ip, v.now) then (s, Throttled(Limiting.WaitAt(s.limits, v.ip, v.now)))
    else if runes < MIN_PASSPHRASE || passphrase != confirm then (s, Sent)
    else
      match VaultSpec.Unlock(s.st, current)
      case Err(_) => (s.(limits := Limiting.AfterFail(s.limits, v.ip, v.now)), Sent)
      case Ok(dek) =>
        var st := VaultSpec.ChangePassphrase(s.st, dek, passphrase, params, nonce).0;
        (s.(st := st, limits := Limiting.AfterReset(s.limits, v.ip)), Sent)
  }

  ghost function Serve(codes: CodeFn, s0: Site, q: Request): (Site, Reply) {
    var v := q.visit;
    var s := Entered(s0, v);
    match q
    case GetSetup(_) => if s.st.vault.Some? then (s, Redirected) else (Welcomed(s0, s, v), Sent)
    case GetUnlock(_) =>
      if s.st.vault.None? || (Now(s0, v).Some? && Now(s0, v).value.Unlocked()) then (s, Redirected)
      else (Welcomed(s0, s, v), Sent)
    case PostSetup(_, passphrase, confirm, runes, params, dek, nonce) =>
      if !Admitted(s0, v) then (s, Forbidden)
      else if runes < MIN_PASSPHRASE || passphrase != confirm then (s, Sent)
      else
        var (st, r) := VaultSpec.Setup(s.st, passphrase, params, dek, nonce);
        if r.Err? then (s.(st := st), if r.error.AlreadyInit? then Redirected else Sent)
        else (Replaced(s.(st := st), v, r.value, false), LoggedIn(v.newId))
    case PostUnlock(_, passphrase) =>
      if !Admitted(s0, v) then (s, Forbidden)
      else AnswerUnlock(s, v, passphrase)
    case PostCode(_, code, clock) =>
      if !Admitted(s0, v) then (s, Forbidden)
      else if Now(s0, v).value.dek.None? || !Now(s0, v).value.pending then (s, Redirected)
      else AnswerCode(codes, s, v, Now(s0, v).value.dek.value, code, clock)
    case PostLock(_) => if !Admitted(s0, v) then (s, Forbidden) else (s.(views := s.views - {v.cookie}), LoggedOut)
    case PostRekey(_, passphrase, params, nonce, dek, nonces) =>
      if !Admitted(s0, v) then (s, Forbidden)
      else if !Now(s0, v).value.Unlocked() then (s, Redirected)
      else AnswerRekey(s, v, passphrase, params, nonce, dek, nonces)
    case PostPassphrase(_, current, passphrase, confirm, runes, params, nonce) =>
      if !Admitted(s0, v) then (s, Forbidden)
      else if !Now(s0, v).value.Unlocked() then (s, Redirected)
      else AnswerPassphrase(s, v, current, passphrase, confirm, runes, params, nonce)
    case Tidy(_) =>
      (s0.(views := Swept(s0.views, s0.idle, s0.max, v.now), limits := Limiting.AfterSweep(s0.limits, v.now)), Sent)
    case Elsewhere(_, store) => (s0.(st := store), Sent)
  }

  // ---- where an unlocked session comes from ----

  /** The request comes from a live session with its token, and is not throttled. */
  predicate Heard(s: Site, q: Request) {
    Admitted(s, q.visit) && (q.PostSetup? || Limiting.AllowedAt(s.limits, q.visit.ip, q.visit.now))
  }

  /** The key a request earns for an id, by the vault's own judgement: a setup, the
      right passphrase while no second factor is enabled, an accepted code on a
      pending session, or a rekey from an unlocked one. */
  ghost function Grants(codes: CodeFn, s: Site, q: Request): Option<(string, Bytes)> {
    if !Heard(s, q) then None
    else
      var asker := Now(s, q.visit).value;
      match q
      case PostSetup(v, passphrase, confirm, runes, params, dek, nonce) =>
        var r := VaultSpec.Setup(s.st, passphrase, params, dek, nonce).1;
        if r.Ok? && runes >= MIN_PASSPHRASE && passphrase == confirm then Some((v.newId, r.value)) else None
      case PostUnlock(v, passphrase) =>
        var r := VaultSpec.Unlock(s.st, passphrase);
        if r.Ok? && VaultSpec.TotpEnabled(s.st) == Ok(false) then Some((v.newId, r.value)) else None
      case PostCode(v, code, clock) =>
        if asker.pending && asker.dek.Some?
          && VaultSpec.VerifyLoginTotp(s.st, codes, asker.dek.value, code, clock).1 == Ok(true)
        then Some((v.newId, asker.dek.value)) else None
      case PostRekey(v, passphrase, params, nonce, dek, nonces) =>
        var r := VaultSpec.Rekey(s.st, passphrase, params, nonce, dek, nonces).1;
        if r.Ok? && asker.Unlocked() then Some((v.cookie, r.value)) else None
      case _ => None
  }

  /** The key a request earns for an id that still owes its code. */
  ghost function Passes(s: Site, q: Request): Option<(string, Bytes)> {
    match q
    case PostUnlock(v, passphrase) =>
      var r := VaultSpec.Unlock(s.st, passphrase);
      if Heard(s, q) && r.Ok? && VaultSpec.TotpEnabled(s.st) == Ok(true) then Some((v.newId, r.value)) else None
    case _ => None
  }

  /** The last key earned for each id, with and without an outstanding code. */
  datatype Record = Record(granted: map<string, Bytes>, passed: map<string, Bytes>)

  ghost function Noted(codes: CodeFn, r: Record, s: Site, q: Request): Record {
    var g, p := Grants(codes, s, q), Passes(s, q);
    Record(if g.Some? then r.granted[g.value.0 := g.value.1] else r.granted,
           if p.Some? then r.passed[p.value.0 := p.value.1] else r.passed)
  }

  /** Every key in the map was earned, and is the last one earned for its session. */
  ghost predicate Earned(s: Site, r: Record) {
    && s.views.Keys <= s.issued
    && forall id | id in s.views && s.views[id].dek.Some? ::
         if s.views[id].pending then id in r.passed && r.passed[id] == s.views[id].dek.value
         else id in r.granted && r.granted[id] == s.views[id].dek.value
  }

  /** The tokens drawn are new. */
  predicate FreshTokens(s: Site, q: Request) {
    q.visit.newId !in s.issued
  }

  lemma EnteringKeepsEarned(s: Site, r: Record, v: Visit)
    requires Earned(s, r)
    ensures Earned(Entered(s, v), r)
  {
  }

  /** A session that comes under a fresh id, with the key noted for it. */
  lemma ReplacingKeepsEarned(s: Site, r: Record, v: Visit, dek: Bytes, pending: bool)
    requires Earned(s, r) && v.newId !in s.issued
    ensures Earned(Replaced(s, v, dek, pending),
      if pending then r.(passed := r.passed[v.newId := dek]) else r.(granted := r.granted[v.newId := dek]))
  {
  }

  lemma UnlockKeepsEarned(codes: CodeFn, s: Site, r: Record, q: Request)
    requires Earned(s, r) && FreshTokens(s, q) && q.PostUnlock?
    ensures Earned(Serve(codes, s, q).0, Noted(codes, r, s, q))
  {
    EnteringKeepsEarned(s, r, q.visit);
    var got := VaultSpec.Unlock(s.st, q.passphrase);
    assert got.Ok? ==> VaultSpec.TotpEnabled(s.st).Ok?;
    if got.Ok? {
      ReplacingKeepsEarned(Entered(s, q.visit), r, q.visit, got.value, VaultSpec.TotpEnabled(s.st) == Ok(true));
    }
    hide VaultSpec.Unlock, VaultSpec.TotpEnabled, Entered, Now;
    hide Limiting.AllowedAt, Limiting.WaitAt, Limiting.AfterFail, Limiting.AfterReset;
  }

  lemma CodeKeepsEarned(codes: CodeFn, s: Site, r: Record, q: Request)
    requires Earned(s, r) && FreshTokens(s, q) && q.PostCode?
    ensures Earned(Serve(codes, s, q).0, Noted(codes, r, s, q))
  {
    EnteringKeepsEarned(s, r, q.visit);
    hide VaultSpec.VerifyLoginTotp, Limiting.AllowedAt, Limiting.WaitAt, Limiting.AfterFail, Limiting.AfterReset;
  }

  lemma RekeyKeepsEarned(codes: CodeFn, s: Site, r: Record, q: Request)
    requires Earned(s, r) && FreshTokens(s, q) && q.PostRekey?
    ensures Earned(Serve(codes, s, q).0, Noted(codes, r, s, q))
  {
    EnteringKeepsEarned(s, r, q.visit);
    hide VaultSpec.Rekey, Limiting.AllowedAt, Limiting.WaitAt, Limiting.AfterFail, Limiting.AfterReset;
  }

  lemma SetupKeepsEarned(codes: CodeFn, s: Site, r: Record, q: Request)
    requires Earned(s, r) && FreshTokens(s, q) && q.PostSetup?
    ensures Earned(Serve(codes, s, q).0, Noted(codes, r, s, q))
  {
    EnteringKeepsEarned(s, r, q.visit);
    var (st, got) := VaultSpec.Setup(s.st, q.passphrase, q.params, q.dek, q.nonce);
    if got.Ok? {
      ReplacingKeepsEarned(Entered(s, q.visit).(st := st), r, q.visit, got.value, false);
    }
    hide VaultSpec.Setup, Entered, Now;
  }

  lemma WelcomeKeepsEarned(codes: CodeFn, s: Site, r: Record, q: Request)
    requires Earned(s, r) && FreshTokens(s, q) && (q.GetSetup? || q.GetUnlock?)
    ensures Earned(Serve(codes, s, q).0, Noted(codes, r, s, q))
  {
    EnteringKeepsEarned(s, r, q.visit);
  }

  lemma OthersKeepEarned(codes: CodeFn, s: Site, r: Record, q: Request)
    requires Earned(s, r) && (q.PostLock? || q.PostPassphrase? || q.Tidy? || q.Elsewhere?)
    ensures Earned(Serve(codes, s, q).0, Noted(codes, r, s, q))
  {
    EnteringKeepsEarned(s, r, q.visit);
    hide VaultSpec.Unlock, VaultSpec.ChangePassphrase, Limiting.AllowedAt, Limiting.WaitAt;
    hide Limiting.AfterFail, Limiting.AfterReset, Limiting.AfterSweep;
  }

  lemma ServeKeepsEarned(codes: CodeFn, s: Site, r: Record, q: Request)
    requires Earned(s, r) && FreshTokens(s, q)
    ensures Earned(Serve(codes, s, q).0, Noted(codes, r, s, q))
  {
    hide Serve, Noted, Earned;
    match q
    case GetSetup(_) => WelcomeKeepsEarned(codes, s, r, q);
    case GetUnlock(_) => WelcomeKeepsEarned(codes, s, r, q);
    case PostSetup(_, _, _, _, _, _, _) => SetupKeepsEarned(codes, s, r, q);
    case PostUnlock(_, _) => UnlockKeepsEarned(codes, s, r, q);
    case PostCode(_, _, _) => CodeKeepsEarned(codes, s, r, q);
    case PostRekey(_, _, _, _, _, _) => RekeyKeepsEarned(codes, s, r, q);
    case _ => OthersKeepEarned(codes, s, r, q);
  }

  /** An accepted code shows that the key held since the passphrase is the current one
      exactly if the second factor is sealed under the current key, as it is unless a
      session enrolled it with an outdated one. */
  lemma AcceptedCodeKey(codes: CodeFn, st: State, passphrase: Bytes, dek: Bytes, key: Bytes, code: string, clock: Clock)
    requires VaultSpec.Unlock(st, passphrase) == Ok(dek)
    requires VaultSpec.VerifyLoginTotp(st, codes, key, code, clock).1 == Ok(true)
    ensures key == dek <==> SecondFactorOpens(st, dek)
    ensures VaultSpec.Unlock(VaultSpec.VerifyLoginTotp(st, codes, key, code, clock).0, passphrase) == Ok(dek)
  {
    hide Validate, Tables.RoleAad;
  }

  predicate SecondFactorOpens(st: State, dek: Bytes) {
    st.rows.totp.Some? && Aead.Open(Raw(dek), st.rows.totp.value, Tables.RoleAad(TOTP_CELL)).Ok?
  }

  /** A granted key is the one the passphrase unwraps after the request; at a code,
      exactly if the second factor is sealed under the current key. */
  lemma GrantedKeyIsCurrent(codes: CodeFn, s: Site, q: Request, passphrase: Bytes, dek: Bytes)
    requires VaultSpec.Unlock(s.st, passphrase) == Ok(dek) && Grants(codes, s, q).Some?
    ensures VaultSpec.Unlock(Serve(codes, s, q).0.st, passphrase) == Ok(Grants(codes, s, q).value.1) <==>
      (q.PostCode? ==> SecondFactorOpens(s.st, dek))
  {
    hide Now, Validate, AllTransform, Tables.RoleAad;
    hide Limiting.AllowedAt, Limiting.WaitAt, Limiting.AfterFail, Limiting.AfterReset;
    var asker := Now(s, q.visit);
    if q.PostCode? {
      AcceptedCodeKey(codes, s.st, passphrase, dek, asker.value.dek.value, q.code, q.clock);
    } else if (q.PostUnlock? || q.PostRekey?) && q.passphrase != passphrase {
      Lifecycle.OnlyThePassphrase(s.st, passphrase, dek, q.passphrase);
    }
  }

  /** Over a readable store the second factor, if any, is sealed under the current key. */
  lemma ReadableSecondFactor(st: State, passphrase: Bytes, dek: Bytes, plain: Tables.Rows<Bytes>)
    requires Lifecycle.Consistent(st, passphrase, dek, plain) && st.rows.totp.Some?
    ensures SecondFactorOpens(st, dek)
  {
    assert Tables.Has(st.rows, TOTP_CELL);
    hide Tables.RoleAad, Tables.SameShape, Tables.Intact;
  }

  // ---- whole runs ----

  ghost function SiteAfter(codes: CodeFn, s: Site, qs: seq<Request>): Site
    decreases |qs|
  {
    if qs == [] then s else Serve(codes, SiteAfter(codes, s, qs[..|qs| - 1]), qs[|qs| - 1]).0
  }

  /** What the k-th request of a run is granted. */
  ghost function GrantAt(codes: CodeFn, s: Site, qs: seq<Request>, k: nat): Option<(string, Bytes)>
    requires k < |qs|
  {
    Grants(codes, SiteAfter(codes, s, qs[..k]), qs[k])
  }

  ghost predicate GrantedTo(codes: CodeFn, s: Site, qs: seq<Request>, k: nat, id: string)
    requires k < |qs|
  {
    GrantAt(codes, s, qs, k).Some? && GrantAt(codes, s, qs, k).value.0 == id
  }

  /** The k-th request grants `dek` to `id`, and no later one grants `id` anything. */
  ghost predicate LatestGrant(codes: CodeFn, s: Site, qs: seq<Request>, k: int, id: string, dek: Bytes) {
    && 0 <= k < |qs|
    && GrantAt(codes, s, qs, k) == Some((id, dek))
    && forall j | k < j < |qs| :: !GrantedTo(codes, s, qs, j, id)
  }

  ghost function RecordAfter(codes: CodeFn, s: Site, qs: seq<Request>): Record
    decreases |qs|
  {
    if qs == [] then Record(map[], map[])
    else
      var n := |qs| - 1;
      Noted(codes, RecordAfter(codes, s, qs[..n]), SiteAfter(codes, s, qs[..n]), qs[n])
  }

  ghost predicate AllFresh(codes: CodeFn, s: Site, qs: seq<Request>) {
    forall k | 0 <= k < |qs| :: FreshTokens(SiteAfter(codes, s, qs[..k]), qs[k])
  }

  lemma {:induction false} RunKeepsEarned(codes: CodeFn, s: Site, qs: seq<Request>)
    requires s.views == map[] && AllFresh(codes, s, qs)
    ensures Earned(SiteAfter(codes, s, qs), RecordAfter(codes, s, qs))
    decreases |qs|
  {
    hide Serve, Noted, FreshTokens;
    if qs != [] {
      var n := |qs| - 1;
      assert forall k | 0 <= k < n :: qs[..n][..k] == qs[..k];
      assert FreshTokens(SiteAfter(codes, s, qs[..n]), qs[n]);
      RunKeepsEarned(codes, s, qs[..n]);
      ServeKeepsEarned(codes, SiteAfter(codes, s, qs[..n]), RecordAfter(codes, s, qs[..n]), qs[n]);
    }
  }

  lemma {:induction false} RecordIsLatest(codes: CodeFn, s: Site, qs: seq<Request>, id: string)
    requires id in RecordAfter(codes, s, qs).granted
    ensures exists k :: LatestGrant(codes, s, qs, k, id, RecordAfter(codes, s, qs).granted[id])
    decreases |qs|
  {
    hide Grants, Passes, Serve;
    var n := |qs| - 1;
    var key := RecordAfter(codes, s, qs).granted[id];
    if GrantedTo(codes, s, qs, n, id) {
      assert LatestGrant(codes, s, qs, n, id, key);
    } else {
      var before := qs[..n];
      RecordIsLatest(codes, s, before, id);
      var k :| LatestGrant(codes, s, before, k, id, key);
      assert forall j | 0 <= j < n :: before[..j] == qs[..j];
      assert forall j | 0 <= j < n :: GrantedTo(codes, s, before, j, id) == GrantedTo(codes, s, qs, j, id);
      assert LatestGrant(codes, s, qs, k, id, key);
    }
  }

  /** In every run of the handlers from a fresh start, whatever else happens to the
      store between: an unlocked session holds exactly the key of the latest grant
      to its id. */
  lemma UnlockedWasGranted(codes: CodeFn, s: Site, qs: seq<Request>, id: string)
    requires s.views == map[] && AllFresh(codes, s, qs)
    requires id in SiteAfter(codes, s, qs).views && SiteAfter(codes, s, qs).views[id].Unlocked()
    ensures exists k :: LatestGrant(codes, s, qs, k, id, SiteAfter(codes, s, qs).views[id].dek.value)
  {
    RunKeepsEarned(codes, s, qs);
    RecordIsLatest(codes, s, qs, id);
    hide LatestGrant, AllFresh, SiteAfter, RecordAfter;
  }
}
