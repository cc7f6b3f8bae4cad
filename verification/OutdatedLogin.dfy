/** A run of the handlers in which a login that waits for its code is promoted with a
    key that is no longer the vault's. */
module OutdatedLogin {
  import opened Common
  import opened Aead
  import opened Login
  import opened Samples
  import opened SessionKeys
  import opened Sessions
  import opened Totp
  import opened VaultSpec
  import Lifecycle
  import Limiting
  import Tables

  const NOW := 1000

  function Visiting(cookie: string, newId: string): Visit {
    Visit(cookie, "t", true, "h", NOW, newId, "t")
  }

  function Begun(dek: Option<Bytes>, pending: bool): View {
    Sess(dek, "t", pending, NOW, NOW)
  }

  /** Every session has just begun, and nobody has failed. */
  predicate Calm(s: Site) {
    && s.limits == Limiting.NEW_LIMITS && s.idle >= 0 && s.max >= 0
    && forall id | id in s.views :: s.views[id] == Begun(s.views[id].dek, s.views[id].pending)
  }

  predicate Holds(s: Site, cookie: string, view: View) {
    Calm(s) && cookie != "" && cookie in s.views && s.views[cookie] == view
  }

  // ---- single requests ----

  lemma Enters(s: Site, cookie: string, newId: string)
    requires Calm(s)
    ensures Entered(s, Visiting(cookie, newId)) == s
    ensures cookie != "" && cookie in s.views ==>
      Now(s, Visiting(cookie, newId)) == Some(s.views[cookie]) && Admitted(s, Visiting(cookie, newId))
    ensures cookie == "" ==> Now(s, Visiting(cookie, newId)) == None
  {
    if cookie in s.views {
      assert s.views[cookie := s.views[cookie]] == s.views;
    }
  }

  function WithSession(s: Site, id: string, dek: Option<Bytes>, pending: bool): Site {
    s.(views := s.views[id := Begun(dek, pending)], issued := s.issued + {id})
  }

  function Without(s: Site, id: string): Site {
    s.(views := s.views - {id})
  }

  lemma Arrives(codes: CodeFn, s: Site, id: string)
    requires Calm(s)
    ensures s.st.vault.None? ==> Serve(codes, s, GetSetup(Visiting("", id))).0 == WithSession(s, id, None, false)
    ensures s.st.vault.Some? ==> Serve(codes, s, GetUnlock(Visiting("", id))).0 == WithSession(s, id, None, false)
  {
    Enters(s, "", id);
    hide Entered, Now;
  }

  lemma SetsUpVault(codes: CodeFn, s: Site, cookie: string, id: string)
    requires Holds(s, cookie, Begun(None, false)) && s.st == NEW_STATE
    ensures var q := PostSetup(Visiting(cookie, id), PASSPHRASE, PASSPHRASE, 8, COSTS, DEK, NONCE);
      Serve(codes, s, q).0 == WithSession(Without(s, cookie), id, Some(DEK), false).(
        st := Setup(NEW_STATE, PASSPHRASE, COSTS, DEK, NONCE).0)
  {
    Enters(s, cookie, id);
    hide Entered, Now, Admitted, DEK, PASSPHRASE, COSTS, NONCE, Wrap;
  }

  /** The right passphrase gives the key, at once or once the code is given. */
  lemma GivesPassphrase(codes: CodeFn, s: Site, cookie: string, id: string, dek: Bytes)
    requires Holds(s, cookie, Begun(None, false)) && Unlock(s.st, PASSPHRASE) == Ok(dek)
    ensures Serve(codes, s, PostUnlock(Visiting(cookie, id), PASSPHRASE)).0 ==
      WithSession(Without(s, cookie), id, Some(dek), VaultSpec.TotpEnabled(s.st) == Ok(true))
  {
    Enters(s, cookie, id);
    assert Limiting.AfterReset(s.limits, "h") == s.limits;
    hide Entered, Now, Admitted, PASSPHRASE, Unlock, VaultSpec.TotpEnabled;
  }

  lemma RekeysVault(codes: CodeFn, s: Site, cookie: string, id: string, dek: Bytes, nonces: Tables.Cell -> Bytes)
    requires Holds(s, cookie, Begun(Some(dek), false))
    requires Rekey(s.st, PASSPHRASE, COSTS, NONCE, OTHER_DEK, nonces).1 == Ok(OTHER_DEK)
    ensures var q := PostRekey(Visiting(cookie, id), PASSPHRASE, COSTS, NONCE, OTHER_DEK, nonces);
      && Serve(codes, s, q).0 == s.(
           st := Rekey(s.st, PASSPHRASE, COSTS, NONCE, OTHER_DEK, nonces).0,
           views := s.views[cookie := Begun(Some(OTHER_DEK), false)])
      && Rekeys(codes, s, q)
  {
    hide PASSPHRASE, COSTS, NONCE, OTHER_DEK, Rekey;
    Enters(s, cookie, id);
    assert Limiting.AfterReset(s.limits, "h") == s.limits;
    hide Entered, Now, Admitted, Limiting.AfterReset;
  }

  lemma GivesCode(codes: CodeFn, s: Site, cookie: string, id: string, dek: Bytes, code: string, clock: Clock)
    requires Holds(s, cookie, Begun(Some(dek), true))
    requires VerifyLoginTotp(s.st, codes, dek, code, clock).1 == Ok(true)
    ensures var q := PostCode(Visiting(cookie, id), code, clock);
      && Serve(codes, s, q) == (WithSession(Without(s, cookie), id, Some(dek), false).(
           st := VerifyLoginTotp(s.st, codes, dek, code, clock).0), LoggedIn(id))
      && Grants(codes, s, q) == Some((id, dek))
  {
    Enters(s, cookie, id);
    assert Limiting.AfterReset(s.limits, "h") == s.limits;
    hide Entered, Now, Admitted, VerifyLoginTotp;
  }

  // ---- the story ----

  /** The store: set up; enrolled; rekeyed; enrolled again by a session that still holds
      the first key; and after the code. */
  function Empty(): State {
    Setup(NEW_STATE, PASSPHRASE, COSTS, DEK, NONCE).0
  }

  function Enrolled(codes: CodeFn, first: string): State {
    ConfirmTotp(Empty(), codes, DEK, SECRET, first, PERIOD, NONCE).0
  }

  ghost function Rekeyed(codes: CodeFn, first: string, nonces: Tables.Cell -> Bytes): State {
    Rekey(Enrolled(codes, first), PASSPHRASE, COSTS, NONCE, OTHER_DEK, nonces).0
  }

  ghost function Spoilt(codes: CodeFn, first: string, nonces: Tables.Cell -> Bytes): State {
    ConfirmTotp(Rekeyed(codes, first, nonces), codes, DEK, SECRET, first, PERIOD, NONCE).0
  }

  const LATER := 10 * PERIOD

  lemma Stores(codes: CodeFn, first: string, later: string, nonces: Tables.Cell -> Bytes)
    requires codes(SECRET, 0) == Some(first) && codes(SECRET, 9) == Some(later)
    ensures Unlock(Empty(), PASSPHRASE) == Ok(DEK) && VaultSpec.TotpEnabled(Empty()) == Ok(false)
    ensures var st := Enrolled(codes, first);
      && Unlock(st, PASSPHRASE) == Ok(DEK) && VaultSpec.TotpEnabled(st) == Ok(true)
      && Rekey(st, PASSPHRASE, COSTS, NONCE, OTHER_DEK, nonces).1 == Ok(OTHER_DEK)
    ensures Unlock(Rekeyed(codes, first, nonces), PASSPHRASE) == Ok(OTHER_DEK)
    ensures var st := Spoilt(codes, first, nonces);
      && Unlock(st, PASSPHRASE) == Ok(OTHER_DEK)
      && VerifyLoginTotp(st, codes, DEK, later, LATER).1 == Ok(true)
  {
    var st0, none := Empty(), Tables.Empty<Bytes>();
    assert VaultSpec.TotpEnabled(st0) == Ok(false);
    KeysDiffer();
    hide DEK, OTHER_DEK, SECRET, PASSPHRASE, COSTS, NONCE, Validate;
    AcceptedExactly(codes, SECRET, first, PERIOD, -1, 0);
    AcceptedExactly(codes, SECRET, later, LATER, 0, 9);
    Lifecycle.SetupEstablishes(NEW_STATE, PASSPHRASE, COSTS, DEK, NONCE);
    hide Setup, Unlock, Rekey, Lifecycle.Consistent, VaultSpec.TotpEnabled;
    Lifecycle.EnrolExactly(st0, PASSPHRASE, DEK, none, codes, DEK, SECRET, first, PERIOD, NONCE);
    var st1, plain := Enrolled(codes, first), none.(totp := Some(SECRET));
    Lifecycle.RekeyPreservesMeaning(st1, PASSPHRASE, DEK, plain, COSTS, NONCE, OTHER_DEK, nonces);
    var st2 := Rekeyed(codes, first, nonces);
    UnlocksWhenConsistent(st2, PASSPHRASE, OTHER_DEK, plain);
    Lifecycle.EnrolExactly(st2, PASSPHRASE, OTHER_DEK, plain, codes, DEK, SECRET, first, PERIOD, NONCE);
    StepStored(st2, codes, first);
  }

  lemma UnlocksWhenConsistent(st: State, passphrase: Bytes, dek: Bytes, plain: Tables.Rows<Bytes>)
    requires Lifecycle.Consistent(st, passphrase, dek, plain)
    ensures Unlock(st, passphrase) == Ok(dek) && st.vault.Some?
  {
  }

  lemma StepStored(st: State, codes: CodeFn, code: string)
    requires st.vault.Some? && Validate(codes, SECRET, code, PERIOD, -1) == Accepted(0)
    ensures var st' := ConfirmTotp(st, codes, DEK, SECRET, code, PERIOD, NONCE).0;
      st'.vault.Some? && st'.vault.value.totpLast == 0
  {
    hide Validate, SECRET;
  }

  // ---- runs put together ----

  /** The requests lead from one site to the other, with tokens not given out before,
      and what happens elsewhere leaves the wrap. */
  ghost predicate Plays(codes: CodeFn, s: Site, qs: seq<Request>, s': Site) {
    s' == SiteAfter(codes, s, qs) && AllFresh(codes, s, qs) && WrapKept(codes, s, qs)
  }

  lemma PlaysOne(codes: CodeFn, s: Site, q: Request, s': Site)
    requires s' == Serve(codes, s, q).0 && FreshTokens(s, q) && (q.Elsewhere? ==> SameWrap(s.st, q.store))
    ensures Plays(codes, s, [q], s')
  {
    hide Serve, FreshTokens, SameWrap;
    assert [q][..0] == [] && SiteAfter(codes, s, []) == s;
    assert SiteAfter(codes, s, [q]) == s';
  }

  lemma {:induction false} AfterBoth(codes: CodeFn, s: Site, a: seq<Request>, b: seq<Request>)
    ensures SiteAfter(codes, s, a + b) == SiteAfter(codes, SiteAfter(codes, s, a), b)
    decreases |b|
  {
    hide Serve;
    if b == [] {
      assert a + b == a;
    } else {
      var n := |b| - 1;
      assert (a + b)[..|a + b| - 1] == a + b[..n];
      AfterBoth(codes, s, a, b[..n]);
    }
  }

  lemma PlaysBoth(codes: CodeFn, s: Site, a: seq<Request>, s': Site, b: seq<Request>, s'': Site)
    requires Plays(codes, s, a, s') && Plays(codes, s', b, s'')
    ensures Plays(codes, s, a + b, s'')
  {
    hide SiteAfter, FreshTokens, SameWrap;
    AfterBoth(codes, s, a, b);
    forall k: nat | k < |a| + |b|
      ensures SiteAfter(codes, s, (a + b)[..k]) ==
        if k < |a| then SiteAfter(codes, s, a[..k]) else SiteAfter(codes, s', b[..k - |a|])
    {
      if k < |a| {
        assert (a + b)[..k] == a[..k];
      } else {
        assert (a + b)[..k] == a + b[..k - |a|];
        AfterBoth(codes, s, a, b[..k - |a|]);
      }
    }
  }

  // ---- the run ----

  function SiteWith(views: Views, issued: set<string>, st: State): Site {
    Site(views, issued, Limiting.NEW_LIMITS, st, 1800, 43200)
  }

  /** The first visitor sets the vault up. */
  function Founding(): seq<Request> {
    [GetSetup(Visiting("", "1"))] + [PostSetup(Visiting("1", "a"), PASSPHRASE, PASSPHRASE, 8, COSTS, DEK, NONCE)]
  }

  lemma Founds(codes: CodeFn)
    ensures Plays(codes, SiteWith(map[], {}, NEW_STATE), Founding(),
      SiteWith(map["a" := Begun(Some(DEK), false)], {"1", "a"}, Empty()))
  {
    var s, q := SiteWith(map[], {}, NEW_STATE), GetSetup(Visiting("", "1"));
    var s1 := WithSession(s, "1", None, false);
    var q1 := PostSetup(Visiting("1", "a"), PASSPHRASE, PASSPHRASE, 8, COSTS, DEK, NONCE);
    var s2 := WithSession(Without(s1, "1"), "a", Some(DEK), false).(st := Empty());
    assert s2.views == map["a" := Begun(Some(DEK), false)] && s2.issued == {"1", "a"};
    hide Serve, Setup, DEK, PASSPHRASE, COSTS, NONCE;
    Arrives(codes, s, "1");
    SetsUpVault(codes, s1, "1", "a");
    PlaysOne(codes, s, q, s1);
    PlaysOne(codes, s1, q1, s2);
    PlaysBoth(codes, s, [q], s1, [q1], s2);
  }

  /** A newcomer is given a session without a key, and gives the passphrase. */
  function Joining(v: string, id: string): seq<Request> {
    [GetUnlock(Visiting("", v))] + [PostUnlock(Visiting(v, id), PASSPHRASE)]
  }

  lemma Joins(codes: CodeFn, s: Site, v: string, id: string, dek: Bytes)
    requires Calm(s) && s.st.vault.Some? && Unlock(s.st, PASSPHRASE) == Ok(dek)
    requires v != "" && v != id && v !in s.issued && id !in s.issued && s.views.Keys <= s.issued
    ensures Plays(codes, s, Joining(v, id),
      s.(views := s.views[id := Begun(Some(dek), VaultSpec.TotpEnabled(s.st) == Ok(true))],
         issued := s.issued + {v, id}))
  {
    hide Serve, Unlock, VaultSpec.TotpEnabled, PASSPHRASE;
    var q, q1 := GetUnlock(Visiting("", v)), PostUnlock(Visiting(v, id), PASSPHRASE);
    var s1 := WithSession(s, v, None, false);
    var s2 := WithSession(Without(s1, v), id, Some(dek), VaultSpec.TotpEnabled(s.st) == Ok(true));
    assert Without(s1, v).views == s.views && s2.issued == s.issued + {v, id};
    Arrives(codes, s, v);
    GivesPassphrase(codes, s1, v, id, dek);
    PlaysOne(codes, s, q, s1);
    PlaysOne(codes, s1, q1, s2);
    PlaysBoth(codes, s, [q], s1, [q1], s2);
  }

  lemma StoreChanges(codes: CodeFn, s: Site, cookie: string, id: string, st: State)
    requires id !in s.issued && SameWrap(s.st, st)
    ensures Plays(codes, s, [Elsewhere(Visiting(cookie, id), st)], s.(st := st))
  {
    PlaysOne(codes, s, Elsewhere(Visiting(cookie, id), st), s.(st := st));
    hide SameWrap;
  }

  lemma WrapStays(codes: CodeFn, first: string, nonces: Tables.Cell -> Bytes)
    ensures SameWrap(Empty(), Enrolled(codes, first))
    ensures SameWrap(Rekeyed(codes, first, nonces), Spoilt(codes, first, nonces))
  {
    hide Validate, Rekeyed, Empty;
  }

  lemma UnlockedHasVault(st: State, passphrase: Bytes)
    requires Unlock(st, passphrase).Ok?
    ensures st.vault.Some?
  {
  }

  /** One session sets the vault up, a second unlocks it, the first enrols a second
      factor, and a third gives the passphrase and waits for its code. */
  ghost function Before(codes: CodeFn, first: string): seq<Request> {
    Founding() + Joining("2", "c") + [Elsewhere(Visiting("a", "3"), Enrolled(codes, first))] + Joining("4", "p")
  }

  ghost function Waiting(codes: CodeFn, first: string): Site {
    SiteWith(map["a" := Begun(Some(DEK), false), "c" := Begun(Some(DEK), false), "p" := Begun(Some(DEK), true)],
      {"1", "a", "2", "c", "4", "p"}, Enrolled(codes, first))
  }

  lemma PlaysBefore(codes: CodeFn, first: string, later: string, nonces: Tables.Cell -> Bytes)
    requires codes(SECRET, 0) == Some(first) && codes(SECRET, 9) == Some(later)
    ensures Plays(codes, SiteWith(map[], {}, NEW_STATE), Before(codes, first), Waiting(codes, first))
  {
    hide Unlock, Empty, VaultSpec.TotpEnabled, Enrolled, Rekeyed, Spoilt, Rekey, VerifyLoginTotp, SameWrap, Plays;
    hide DEK, OTHER_DEK, SECRET, PASSPHRASE, COSTS, NONCE, Founding, Joining;
    var u := Begun(Some(DEK), false);
    var s1 := SiteWith(map["a" := u], {"1", "a"}, Empty());
    var s2 := SiteWith(map["a" := u, "c" := u], {"1", "a", "2", "c"}, Empty());
    var s3 := s2.(st := Enrolled(codes, first));
    var s4 := Waiting(codes, first);
    Stores(codes, first, later, nonces);
    WrapStays(codes, first, nonces);
    UnlockedHasVault(Empty(), PASSPHRASE);
    UnlockedHasVault(s3.st, PASSPHRASE);
    assert s1.views["c" := u] == s2.views && s1.issued + {"2", "c"} == s2.issued;
    assert s3.views["p" := Begun(Some(DEK), true)] == s4.views && s3.issued + {"4", "p"} == s4.issued;
    Founds(codes);
    Joins(codes, s1, "2", "c", DEK);
    StoreChanges(codes, s2, "a", "3", s3.st);
    Joins(codes, s3, "4", "p", DEK);
    var s0, enrol := SiteWith(map[], {}, NEW_STATE), [Elsewhere(Visiting("a", "3"), Enrolled(codes, first))];
    PlaysBoth(codes, s0, Founding(), s1, Joining("2", "c"), s2);
    PlaysBoth(codes, s0, Founding() + Joining("2", "c"), s2, enrol, s3);
    PlaysBoth(codes, s0, Founding() + Joining("2", "c") + enrol, s3, Joining("4", "p"), s4);
  }

  /** Then the first rekeys, the second, which was not told, enrols once more, and the
      third gives its code. */
  ghost function After(codes: CodeFn, first: string, later: string, nonces: Tables.Cell -> Bytes): seq<Request> {
    [PostRekey(Visiting("a", "5"), PASSPHRASE, COSTS, NONCE, OTHER_DEK, nonces)]
    + [Elsewhere(Visiting("c", "6"), Spoilt(codes, first, nonces))]
  }

  function LastCode(later: string): Request {
    PostCode(Visiting("p", "u"), later, LATER)
  }

  ghost function Spoiled(codes: CodeFn, first: string, nonces: Tables.Cell -> Bytes): Site {
    SiteWith(map["a" := Begun(Some(OTHER_DEK), false), "c" := Begun(Some(DEK), false), "p" := Begun(Some(DEK), true)],
      {"1", "a", "2", "c", "4", "p"}, Spoilt(codes, first, nonces))
  }

  lemma PlaysAfter(codes: CodeFn, first: string, later: string, nonces: Tables.Cell -> Bytes)
    requires codes(SECRET, 0) == Some(first) && codes(SECRET, 9) == Some(later)
    ensures Plays(codes, Waiting(codes, first), After(codes, first, later, nonces), Spoiled(codes, first, nonces))
  {
    KeysDiffer();
    hide Unlock, VaultSpec.TotpEnabled, Enrolled, Rekeyed, Rekey, VerifyLoginTotp, SameWrap, Plays, Spoilt, Serve;
    WrapStays(codes, first, nonces);
    hide DEK, OTHER_DEK, SECRET, PASSPHRASE, COSTS, NONCE;
    var s := Waiting(codes, first);
    var q := PostRekey(Visiting("a", "5"), PASSPHRASE, COSTS, NONCE, OTHER_DEK, nonces);
    Stores(codes, first, later, nonces);
    RekeysVault(codes, s, "a", "5", DEK, nonces);
    var s1 := s.(st := Rekey(s.st, PASSPHRASE, COSTS, NONCE, OTHER_DEK, nonces).0,
                 views := s.views["a" := Begun(Some(OTHER_DEK), false)]);
    var s2 := s1.(st := Spoilt(codes, first, nonces));
    assert s2 == Spoiled(codes, first, nonces);
    RekeyedIs(codes, first, nonces);
    PlaysOne(codes, s, q, s1);
    StoreChanges(codes, s1, "c", "6", s2.st);
    PlaysBoth(codes, s, [q], s1, [Elsewhere(Visiting("c", "6"), s2.st)], s2);
  }

  lemma RekeyedIs(codes: CodeFn, first: string, nonces: Tables.Cell -> Bytes)
    ensures Rekeyed(codes, first, nonces) ==
      Rekey(Waiting(codes, first).st, PASSPHRASE, COSTS, NONCE, OTHER_DEK, nonces).0
  {
    hide Rekey;
  }

  ghost function Story(codes: CodeFn, first: string, later: string, nonces: Tables.Cell -> Bytes): seq<Request> {
    Before(codes, first) + After(codes, first, later, nonces) + [LastCode(later)]
  }

  /** The pending session has become an unlocked one. */
  ghost function Promoted(codes: CodeFn, first: string, later: string, nonces: Tables.Cell -> Bytes): Site {
    WithSession(Without(Spoiled(codes, first, nonces), "p"), "u", Some(DEK), false).(
      st := VerifyLoginTotp(Spoilt(codes, first, nonces), codes, DEK, later, LATER).0)
  }

  lemma LastStep(codes: CodeFn, first: string, later: string, nonces: Tables.Cell -> Bytes)
    requires codes(SECRET, 0) == Some(first) && codes(SECRET, 9) == Some(later)
    ensures var site := Spoiled(codes, first, nonces);
      && Grants(codes, site, LastCode(later)) == Some(("u", DEK))
      && Serve(codes, site, LastCode(later)) == (Promoted(codes, first, later, nonces), LoggedIn("u"))
      && FreshTokens(site, LastCode(later))
    ensures Unlock(Promoted(codes, first, later, nonces).st, PASSPHRASE) == Ok(OTHER_DEK)
  {
    hide Rekeyed, Rekey, Empty, Enrolled, Spoilt, Unlock, VerifyLoginTotp, Serve, Grants;
    hide DEK, OTHER_DEK, SECRET, PASSPHRASE, COSTS, NONCE;
    Stores(codes, first, later, nonces);
    UnlockAfterCode(Spoilt(codes, first, nonces), codes, later);
    GivesCode(codes, Spoiled(codes, first, nonces), "p", "u", DEK, later, LATER);
  }

  lemma StoryPlays(codes: CodeFn, first: string, later: string, nonces: Tables.Cell -> Bytes)
    requires codes(SECRET, 0) == Some(first) && codes(SECRET, 9) == Some(later)
    ensures var s, qs := SiteWith(map[], {}, NEW_STATE), Story(codes, first, later, nonces);
      && qs != [] && Plays(codes, s, qs[..|qs| - 1], Spoiled(codes, first, nonces))
      && Plays(codes, s, qs, Promoted(codes, first, later, nonces))
      && qs[|qs| - 1] == LastCode(later)
  {
    hide Before, After, LastCode, Plays, Waiting, Spoiled, Promoted, Serve, FreshTokens, SECRET;
    var s, q := SiteWith(map[], {}, NEW_STATE), LastCode(later);
    var a, b := Before(codes, first), After(codes, first, later, nonces);
    PlaysBefore(codes, first, later, nonces);
    PlaysAfter(codes, first, later, nonces);
    LastStep(codes, first, later, nonces);
    NotElsewhere(later);
    PlaysOne(codes, Spoiled(codes, first, nonces), q, Promoted(codes, first, later, nonces));
    PlaysBoth(codes, s, a, Waiting(codes, first), b, Spoiled(codes, first, nonces));
    PlaysBoth(codes, s, a + b, Spoiled(codes, first, nonces), [q], Promoted(codes, first, later, nonces));
    assert Story(codes, first, later, nonces)[..|a + b|] == a + b;
  }

  lemma NotElsewhere(later: string)
    ensures !LastCode(later).Elsewhere?
  {
  }

  /** The code is accepted and the session goes from pending to unlocked with the key of
      before the rekey, though no rekey came after the grant: the grant was not genuine.
      The passphrase unwraps another key. */
  lemma OutdatedKeyIsPromoted(codes: CodeFn, first: string, later: string, nonces: Tables.Cell -> Bytes)
    requires codes(SECRET, 0) == Some(first) && codes(SECRET, 9) == Some(later)
    ensures var s, qs := SiteWith(map[], {}, NEW_STATE), Story(codes, first, later, nonces);
      var site, end := SiteAfter(codes, s, qs[..|qs| - 1]), SiteAfter(codes, s, qs);
      && AllFresh(codes, s, qs) && WrapKept(codes, s, qs) && FreshKeys(s, qs)
      && qs[|qs| - 1] == LastCode(later)
      && Grants(codes, site, LastCode(later)) == Some(("u", DEK))
      && Serve(codes, site, LastCode(later)).1 == LoggedIn("u")
      && "u" in end.views && end.views["u"].Unlocked() && end.views["u"].dek == Some(DEK)
      && Unlock(end.st, PASSPHRASE) == Ok(OTHER_DEK) && OTHER_DEK != DEK
  {
    KeysDiffer();
    hide Story, LastCode, Plays, Spoiled, Spoilt, VerifyLoginTotp, Serve, Grants, FreshKeys, Unlock;
    hide DEK, OTHER_DEK, SECRET, PASSPHRASE, COSTS, NONCE;
    var s, qs := SiteWith(map[], {}, NEW_STATE), Story(codes, first, later, nonces);
    DrawsAreFresh(codes, first, later, nonces);
    StoryPlays(codes, first, later, nonces);
    LastStep(codes, first, later, nonces);
    PlaysIs(codes, s, qs[..|qs| - 1], Spoiled(codes, first, nonces));
    PlaysIs(codes, s, qs, Promoted(codes, first, later, nonces));
    hide SiteAfter, AllFresh, WrapKept, SiteWith;
  }

  lemma PlaysIs(codes: CodeFn, s: Site, qs: seq<Request>, s': Site)
    requires Plays(codes, s, qs, s')
    ensures s' == SiteAfter(codes, s, qs) && AllFresh(codes, s, qs) && WrapKept(codes, s, qs)
  {
  }

  lemma UnlockAfterCode(st: State, codes: CodeFn, code: string)
    ensures Unlock(VerifyLoginTotp(st, codes, DEK, code, LATER).0, PASSPHRASE) == Unlock(st, PASSPHRASE)
  {
    hide Validate, Tables.RoleAad, DEK, PASSPHRASE;
  }

  lemma DrawsAreFresh(codes: CodeFn, first: string, later: string, nonces: Tables.Cell -> Bytes)
    ensures FreshKeys(SiteWith(map[], {}, NEW_STATE), Story(codes, first, later, nonces))
  {
    KeysDiffer();
    hide DEK, OTHER_DEK, PASSPHRASE, COSTS, NONCE, Enrolled, Rekeyed, Spoilt;
  }
}
