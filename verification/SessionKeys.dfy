/** Which of several sessions still hold the current key. */
module SessionKeys {
  import opened Common
  import opened Aead
  import opened Login
  import opened Sealing
  import opened Totp
  import opened VaultSpec
  import Limiting
  import Tables

  /** The key inside the wrap that is stored. */
  function CurrentKey(st: State): Option<Bytes> {
    if st.vault.Some? && st.vault.value.wrapped.Sealed? then Some(st.vault.value.wrapped.plain) else None
  }

  /** It is what any passphrase unwraps that unwraps anything. */
  lemma UnlocksTo(st: State, passphrase: Bytes, key: Bytes)
    requires Unlock(st, passphrase) == Ok(key)
    ensures CurrentKey(st) == Some(key)
  {
  }

  ghost function StateAt(codes: CodeFn, s: Site, qs: seq<Request>, n: nat): State
    requires n <= |qs|
  {
    SiteAfter(codes, s, qs[..n]).st
  }

  /** What happens elsewhere, whatever it does to the content, leaves the wrap. */
  ghost predicate WrapKept(codes: CodeFn, s: Site, qs: seq<Request>) {
    forall n | 0 <= n < |qs| && qs[n].Elsewhere? :: SameWrap(StateAt(codes, s, qs, n), qs[n].store)
  }

  predicate SameWrap(st: State, st': State) {
    st.vault.Some? == st'.vault.Some? && (st.vault.Some? ==> st.vault.value.wrapped == st'.vault.value.wrapped)
  }

  /** The data key that would be drawn while serving the request. */
  function Drawn(q: Request): Option<Bytes> {
    if q.PostSetup? || q.PostRekey? then Some(q.dek) else None
  }

  /** Every data key drawn is new. */
  predicate FreshKeys(s: Site, qs: seq<Request>) {
    && (forall n | 0 <= n < |qs| && Drawn(qs[n]).Some? :: Drawn(qs[n]) != CurrentKey(s.st))
    && (forall m, n | 0 <= m < n < |qs| && Drawn(qs[n]).Some? :: Drawn(qs[m]) != Drawn(qs[n]))
  }

  /** The request rekeys the vault, or sets it up. */
  ghost predicate Rekeys(codes: CodeFn, s: Site, q: Request) {
    q.PostRekey? && Grants(codes, s, q).Some?
  }

  ghost predicate SetsUp(codes: CodeFn, s: Site, q: Request) {
    q.PostSetup? && Grants(codes, s, q).Some?
  }

  // ---- one request ----

  lemma PassphraseKeepsKey(codes: CodeFn, s: Site, q: Request)
    requires q.PostPassphrase?
    ensures CurrentKey(Serve(codes, s, q).0.st) == CurrentKey(s.st)
  {
    hide Now, Limiting.AllowedAt, Limiting.WaitAt, Limiting.AfterFail, Limiting.AfterReset;
  }

  lemma RekeyTakesKey(codes: CodeFn, s: Site, q: Request)
    requires q.PostRekey?
    ensures CurrentKey(Serve(codes, s, q).0.st) == if Rekeys(codes, s, q) then Some(q.dek) else CurrentKey(s.st)
    ensures Rekeys(codes, s, q) ==> CurrentKey(s.st).Some? && Grants(codes, s, q).value.1 == q.dek
  {
    hide Now, AllTransform, Limiting.AllowedAt, Limiting.WaitAt, Limiting.AfterFail, Limiting.AfterReset;
  }

  lemma SetupTakesKey(codes: CodeFn, s: Site, q: Request)
    requires q.PostSetup?
    ensures CurrentKey(Serve(codes, s, q).0.st) == if SetsUp(codes, s, q) then Some(q.dek) else CurrentKey(s.st)
    ensures SetsUp(codes, s, q) ==> CurrentKey(s.st).None? && Grants(codes, s, q).value.1 == q.dek
  {
    hide Now;
  }

  lemma CodeKeepsKey(codes: CodeFn, s: Site, q: Request)
    requires q.PostCode?
    ensures CurrentKey(Serve(codes, s, q).0.st) == CurrentKey(s.st)
  {
    hide Now, Validate, Tables.RoleAad, Limiting.AllowedAt, Limiting.WaitAt, Limiting.AfterFail, Limiting.AfterReset;
  }

  /** Rekeys and the setup put the key they draw into force, and nothing else moves it. */
  lemma KeyStep(codes: CodeFn, s: Site, q: Request)
    requires q.Elsewhere? ==> SameWrap(s.st, q.store)
    ensures CurrentKey(Serve(codes, s, q).0.st) ==
      if Rekeys(codes, s, q) || SetsUp(codes, s, q) then Some(q.dek) else CurrentKey(s.st)
    ensures SetsUp(codes, s, q) ==> CurrentKey(s.st).None?
  {
    match q
    case PostSetup(_, _, _, _, _, _, _) => SetupTakesKey(codes, s, q);
    case PostRekey(_, _, _, _, _, _) => RekeyTakesKey(codes, s, q);
    case PostPassphrase(_, _, _, _, _, _, _) => PassphraseKeepsKey(codes, s, q);
    case PostCode(_, _, _) => CodeKeepsKey(codes, s, q);
    case _ =>
      hide Now, Unlock, VaultSpec.TotpEnabled, Limiting.AllowedAt, Limiting.WaitAt;
      hide Limiting.AfterFail, Limiting.AfterReset, Limiting.AfterSweep;
  }

  /** The request is no code, or the second factor is sealed under the current key. */
  predicate Genuine(s: Site, q: Request) {
    q.PostCode? ==> CurrentKey(s.st).Some? && SecondFactorOpens(s.st, CurrentKey(s.st).value)
  }

  /** What a request grants is the key in force after it exactly if it is genuine. */
  lemma GrantExactly(codes: CodeFn, s: Site, q: Request)
    requires Grants(codes, s, q).Some?
    ensures CurrentKey(Serve(codes, s, q).0.st) == Some(Grants(codes, s, q).value.1) <==> Genuine(s, q)
  {
    match q
    case PostSetup(_, _, _, _, _, _, _) => SetupTakesKey(codes, s, q);
    case PostRekey(_, _, _, _, _, _) => RekeyTakesKey(codes, s, q);
    case PostCode(_, _, _) =>
      CodeKeepsKey(codes, s, q);
      hide Now, Validate, Tables.RoleAad, Serve, Limiting.AllowedAt;
    case PostUnlock(_, _) =>
      KeyStep(codes, s, q);
      hide Now, Serve, Limiting.AllowedAt, VaultSpec.TotpEnabled;
    case _ =>
  }

  // ---- runs ----

  ghost predicate RekeyAt(codes: CodeFn, s: Site, qs: seq<Request>, n: nat)
    requires n < |qs|
  {
    Rekeys(codes, SiteAfter(codes, s, qs[..n]), qs[n])
  }

  ghost predicate RekeyedSince(codes: CodeFn, s: Site, qs: seq<Request>, a: nat, n: nat)
    requires n <= |qs|
  {
    exists j :: a <= j < n && RekeyAt(codes, s, qs, j)
  }

  ghost function KeyAt(codes: CodeFn, s: Site, qs: seq<Request>, n: nat): Option<Bytes>
    requires n <= |qs|
  {
    CurrentKey(StateAt(codes, s, qs, n))
  }

  lemma OneMore(codes: CodeFn, s: Site, qs: seq<Request>, n: nat)
    requires n < |qs| && WrapKept(codes, s, qs)
    ensures KeyAt(codes, s, qs, n + 1) == KeyAt(codes, s, qs, n)
         || (Drawn(qs[n]).Some? && KeyAt(codes, s, qs, n + 1) == Drawn(qs[n]))
    ensures RekeyAt(codes, s, qs, n) ==> qs[n].PostRekey? && KeyAt(codes, s, qs, n + 1) == Drawn(qs[n])
    ensures KeyAt(codes, s, qs, n).Some? && !RekeyAt(codes, s, qs, n) ==>
      KeyAt(codes, s, qs, n + 1) == KeyAt(codes, s, qs, n)
  {
    assert qs[..n + 1][..n] == qs[..n];
    assert qs[n].Elsewhere? ==> SameWrap(StateAt(codes, s, qs, n), qs[n].store);
    hide Serve, Grants, CurrentKey, SameWrap;
    KeyStep(codes, SiteAfter(codes, s, qs[..n]), qs[n]);
  }

  /** The key in force was there at first, or drawn in the run. */
  lemma {:induction false} KeyIsFrom(codes: CodeFn, s: Site, qs: seq<Request>, n: nat)
    requires n <= |qs| && WrapKept(codes, s, qs)
    ensures KeyAt(codes, s, qs, n) == CurrentKey(s.st)
      || exists m :: 0 <= m < n && Drawn(qs[m]).Some? && KeyAt(codes, s, qs, n) == Drawn(qs[m])
    decreases n
  {
    assert qs[..0] == [];
    hide WrapKept, CurrentKey, Drawn;
    if n > 0 {
      KeyIsFrom(codes, s, qs, n - 1);
      OneMore(codes, s, qs, n - 1);
      hide KeyAt;
    }
  }

  /** With fresh keys the key of an earlier time is in force exactly when the vault was
      not rekeyed since. */
  lemma {:induction false} KeyMoves(codes: CodeFn, s: Site, qs: seq<Request>, a: nat, n: nat)
    requires a <= n <= |qs| && WrapKept(codes, s, qs) && FreshKeys(s, qs) && KeyAt(codes, s, qs, a).Some?
    ensures KeyAt(codes, s, qs, n).Some?
    ensures KeyAt(codes, s, qs, n) == KeyAt(codes, s, qs, a) <==> !RekeyedSince(codes, s, qs, a, n)
    decreases n
  {
    hide WrapKept, KeyAt, RekeyAt, FreshKeys, CurrentKey;
    if n > a {
      KeyMoves(codes, s, qs, a, n - 1);
      OneMore(codes, s, qs, n - 1);
      if Drawn(qs[n - 1]).Some? {
        DrawIsNew(codes, s, qs, a, n - 1);
      }
      RekeyedMore(codes, s, qs, a, n - 1);
      hide RekeyedSince;
    }
  }

  lemma DrawIsNew(codes: CodeFn, s: Site, qs: seq<Request>, a: nat, n: nat)
    requires a <= n < |qs| && WrapKept(codes, s, qs) && FreshKeys(s, qs) && Drawn(qs[n]).Some?
    ensures KeyAt(codes, s, qs, a) != Drawn(qs[n])
  {
    hide WrapKept, KeyAt, CurrentKey;
    KeyIsFrom(codes, s, qs, a);
  }

  lemma RekeyedMore(codes: CodeFn, s: Site, qs: seq<Request>, a: nat, n: nat)
    requires a <= n < |qs|
    ensures RekeyedSince(codes, s, qs, a, n + 1) <==> RekeyedSince(codes, s, qs, a, n) || RekeyAt(codes, s, qs, n)
  {
    hide RekeyAt;
  }

  /** A key that passed for a session was in force when it did. */
  lemma {:induction false} PassedWasCurrent(codes: CodeFn, s: Site, qs: seq<Request>, id: string) returns (j: nat)
    requires id in RecordAfter(codes, s, qs).passed
    ensures j < |qs| && KeyAt(codes, s, qs, j) == Some(RecordAfter(codes, s, qs).passed[id])
    decreases |qs|
  {
    hide Grants, Passes, Serve, CurrentKey;
    var n := |qs| - 1;
    var site := SiteAfter(codes, s, qs[..n]);
    if Passes(site, qs[n]).Some? && Passes(site, qs[n]).value.0 == id {
      PassIsCurrent(site, qs[n]);
      j := n;
    } else {
      j := PassedWasCurrent(codes, s, qs[..n], id);
      assert qs[..n][..j] == qs[..j];
    }
  }

  lemma PassIsCurrent(s: Site, q: Request)
    requires Passes(s, q).Some?
    ensures CurrentKey(s.st) == Some(Passes(s, q).value.1)
  {
    hide Heard, VaultSpec.TotpEnabled;
  }

  /** The key that a code is granted was in force before. */
  lemma CodeKeyWasCurrent(codes: CodeFn, s: Site, qs: seq<Request>, k: nat) returns (j: nat)
    requires s.views == map[] && AllFresh(codes, s, qs)
    requires k < |qs| && qs[k].PostCode? && GrantAt(codes, s, qs, k).Some?
    ensures j < k && KeyAt(codes, s, qs, j) == Some(GrantAt(codes, s, qs, k).value.1)
  {
    assert forall m | 0 <= m < k :: qs[..k][..m] == qs[..m];
    RunKeepsEarned(codes, s, qs[..k]);
    AskerHeld(codes, SiteAfter(codes, s, qs[..k]), RecordAfter(codes, s, qs[..k]), qs[k]);
    hide Grants, Serve, CurrentKey, Earned, SiteAfter, RecordAfter;
    j := PassedWasCurrent(codes, s, qs[..k], qs[k].visit.cookie);
  }

  lemma AskerHeld(codes: CodeFn, s: Site, r: Record, q: Request)
    requires Earned(s, r) && q.PostCode? && Grants(codes, s, q).Some?
    ensures q.visit.cookie in r.passed && r.passed[q.visit.cookie] == Grants(codes, s, q).value.1
  {
    hide VaultSpec.VerifyLoginTotp, Limiting.AllowedAt;
  }

  /** In every run of the handlers with any number of sessions, whatever becomes of the
      content and the second factor meanwhile: an unlocked session holds the current key
      exactly when its latest grant was genuine and the vault was not rekeyed since. Its
      own rekeys are such grants, so only another session's can have outdated it. */
  lemma CurrentExactly(codes: CodeFn, s: Site, qs: seq<Request>, id: string) returns (k: nat)
    requires s.views == map[] && AllFresh(codes, s, qs) && WrapKept(codes, s, qs) && FreshKeys(s, qs)
    requires id in SiteAfter(codes, s, qs).views && SiteAfter(codes, s, qs).views[id].Unlocked()
    ensures k < |qs| && LatestGrant(codes, s, qs, k, id, SiteAfter(codes, s, qs).views[id].dek.value)
    ensures CurrentKey(SiteAfter(codes, s, qs).st) == SiteAfter(codes, s, qs).views[id].dek <==>
      Genuine(SiteAfter(codes, s, qs[..k]), qs[k]) && !RekeyedSince(codes, s, qs, k + 1, |qs|)
    ensures forall j | k < j < |qs| && RekeyAt(codes, s, qs, j) :: qs[j].visit.cookie != id
  {
    var dek := SiteAfter(codes, s, qs).views[id].dek;
    k := GrantedAt(codes, s, qs, id);
    assert qs[..|qs|] == qs && KeyAt(codes, s, qs, |qs|) == CurrentKey(SiteAfter(codes, s, qs).st);
    hide WrapKept, RekeyAt, RekeyedSince, CurrentKey, FreshKeys, AllFresh, LatestGrant, SiteAfter, KeyAt, Genuine;
    OthersRekey(codes, s, qs, k, id, dek.value);
    GrantAtExactly(codes, s, qs, k, id, dek.value);
    if KeyAt(codes, s, qs, k + 1) == dek {
      KeyMoves(codes, s, qs, k + 1, |qs|);
    } else {
      StaysOutdated(codes, s, qs, k, id, dek.value);
    }
  }

  lemma StaysOutdated(codes: CodeFn, s: Site, qs: seq<Request>, k: nat, id: string, dek: Bytes)
    requires s.views == map[] && AllFresh(codes, s, qs) && WrapKept(codes, s, qs) && FreshKeys(s, qs)
    requires LatestGrant(codes, s, qs, k, id, dek) && KeyAt(codes, s, qs, k + 1) != Some(dek)
    ensures KeyAt(codes, s, qs, |qs|) != Some(dek)
  {
    GrantAtExactly(codes, s, qs, k, id, dek);
    var j := CodeKeyWasCurrent(codes, s, qs, k);
    hide WrapKept, RekeyAt, FreshKeys, AllFresh, LatestGrant, KeyAt, Genuine;
    KeyMoves(codes, s, qs, j, k + 1);
    KeyMoves(codes, s, qs, j, |qs|);
  }

  lemma GrantedAt(codes: CodeFn, s: Site, qs: seq<Request>, id: string) returns (k: nat)
    requires s.views == map[] && AllFresh(codes, s, qs)
    requires id in SiteAfter(codes, s, qs).views && SiteAfter(codes, s, qs).views[id].Unlocked()
    ensures k < |qs| && LatestGrant(codes, s, qs, k, id, SiteAfter(codes, s, qs).views[id].dek.value)
  {
    UnlockedWasGranted(codes, s, qs, id);
    hide SiteAfter, AllFresh;
    var i :| LatestGrant(codes, s, qs, i, id, SiteAfter(codes, s, qs).views[id].dek.value);
    k := i;
  }

  lemma GrantAtExactly(codes: CodeFn, s: Site, qs: seq<Request>, k: nat, id: string, dek: Bytes)
    requires LatestGrant(codes, s, qs, k, id, dek)
    ensures KeyAt(codes, s, qs, k + 1) == Some(dek) <==> Genuine(SiteAfter(codes, s, qs[..k]), qs[k])
    ensures !Genuine(SiteAfter(codes, s, qs[..k]), qs[k]) ==> qs[k].PostCode?
  {
    assert qs[..k + 1][..k] == qs[..k];
    hide Serve, Grants, CurrentKey;
    GrantExactly(codes, SiteAfter(codes, s, qs[..k]), qs[k]);
  }

  lemma OthersRekey(codes: CodeFn, s: Site, qs: seq<Request>, k: nat, id: string, dek: Bytes)
    requires LatestGrant(codes, s, qs, k, id, dek)
    ensures forall j | k < j < |qs| && RekeyAt(codes, s, qs, j) :: qs[j].visit.cookie != id
  {
    forall j | k < j < |qs| && RekeyAt(codes, s, qs, j) ensures qs[j].visit.cookie != id {
      assert !GrantedTo(codes, s, qs, j, id);
    }
    hide Serve, Unlock, Setup, Rekey, VaultSpec.VerifyLoginTotp, Heard, Now;
  }
}
