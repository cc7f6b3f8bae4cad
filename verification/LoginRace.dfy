/** Logins and rekeys that overlap. A login unwraps the key, looks whether a second
    factor is due, and enters its session into the map; a code post checks the code and
    promotes the session; a rekey commits and hands its session the new key. Other calls
    may fall between. */
module LoginRace {
  import opened Common
  import opened SessionKeys
  import opened Totp
  import opened VaultSpec
  import Aead
  import Lifecycle
  import Login
  import Sealing
  import Tables

  /** A key, and the number of the event that read it out of the vault or put it there. */
  datatype Held = Held(dek: Bytes, read: nat)

  datatype Phase =
    | Unwrapped(held: Held)
    | Flagged(held: Held, due: bool)
    | Passed(held: Held, id: string) // a code, for the session that waits under the id
    | Drawn(held: Held)              // a rekey that has committed
    | Over

  /** The stored state, the number of events so far, the progress of every call, and the
      key of every session that waits for its code or is unlocked. */
  datatype World = World(
    st: State, clock: nat, calls: map<nat, Phase>, pending: map<string, Held>, unlocked: map<string, Held>)

  datatype Event =
    | Unwrap(call: nat, passphrase: Bytes)
    | LookFlag(call: nat)
    | Enter(call: nat, id: string)
    | Check(call: nat, id: string, code: string, now: Clock)
    | Promote(call: nat, newId: string)
    | Commit(call: nat, passphrase: Bytes, params: Aead.KdfParams, nonce: Bytes, dek: Sealing.Dek,
             nonces: Tables.Cell -> Bytes)
    | Give(call: nat, id: string)
    | Drop(id: string)
    | Elsewhere(store: State) // any other change of the store


  /** The commit takes effect. */
  ghost predicate Replaces(w: World, e: Event) {
    && e.Commit? && e.call !in w.calls
    && Rekey(w.st, e.passphrase, e.params, e.nonce, e.dek, e.nonces).1.Ok?
  }

  function With(w: World, call: nat, p: Phase): World {
    w.(calls := w.calls[call := p])
  }

  /** What an event does, apart from being counted. */
  ghost function Effect(w: World, codes: CodeFn, e: Event): World {
    match e
    case Unwrap(i, passphrase) =>
      if i in w.calls then w
      else
        var r := Unlock(w.st, passphrase);
        With(w, i, if r.Ok? then Unwrapped(Held(r.value, w.clock)) else Over)
    case LookFlag(i) =>
      if i in w.calls && w.calls[i].Unwrapped? then
        With(w, i, Flagged(w.calls[i].held, VaultSpec.TotpEnabled(w.st) == Ok(true)))
      else w
    case Enter(i, id) =>
      if i in w.calls && w.calls[i].Flagged? then
        var h := w.calls[i].held;
        if w.calls[i].due then With(w, i, Over).(pending := w.pending[id := h])
        else With(w, i, Over).(unlocked := w.unlocked[id := h])
      else w
    case Check(i, id, code, now) =>
      if i in w.calls || id !in w.pending then w
      else
        var (st, r) := VerifyLoginTotp(w.st, codes, w.pending[id].dek, code, now);
        With(w, i, if r == Ok(true) then Passed(Held(w.pending[id].dek, w.clock), id) else Over).(st := st)
    case Promote(i, newId) =>
      if i in w.calls && w.calls[i].Passed? && w.calls[i].id in w.pending then
        With(w, i, Over).(pending := w.pending - {w.calls[i].id}, unlocked := w.unlocked[newId := w.calls[i].held])
      else w
    case Commit(i, passphrase, params, nonce, dek, nonces) =>
      if i in w.calls then w
      else
        var (st, r) := Rekey(w.st, passphrase, params, nonce, dek, nonces);
        With(w, i, if r.Ok? then Drawn(Held(dek, w.clock)) else Over).(st := st)
    case Give(i, id) =>
      if i in w.calls && w.calls[i].Drawn? then
        With(w, i, Over).(unlocked := if id in w.unlocked then w.unlocked[id := w.calls[i].held] else w.unlocked)
      else w
    case Drop(id) => w.(pending := w.pending - {id}, unlocked := w.unlocked - {id})
    case Elsewhere(store) => w.(st := store)
  }

  ghost function Next(w: World, codes: CodeFn, e: Event): World {
    Effect(w, codes, e).(clock := w.clock + 1)
  }

  ghost function After(w: World, codes: CodeFn, es: seq<Event>): World
    decreases |es|
  {
    if es == [] then w else Next(After(w, codes, es[..|es| - 1]), codes, es[|es| - 1])
  }

  ghost function StateAt(w: World, codes: CodeFn, es: seq<Event>, n: nat): State
    requires n <= |es|
  {
    After(w, codes, es[..n]).st
  }

  ghost function KeyAt(w: World, codes: CodeFn, es: seq<Event>, n: nat): Option<Bytes>
    requires n <= |es|
  {
    CurrentKey(StateAt(w, codes, es, n))
  }

  /** What happens elsewhere may re-wrap the key but leaves it. */
  ghost predicate KeyKept(w: World, codes: CodeFn, es: seq<Event>) {
    forall n | 0 <= n < |es| && es[n].Elsewhere? :: CurrentKey(es[n].store) == KeyAt(w, codes, es, n)
  }

  /** Every commit draws a key that was never in force. */
  ghost predicate FreshKeys(w: World, es: seq<Event>) {
    && (forall n | 0 <= n < |es| && es[n].Commit? :: Some(es[n].dek) != CurrentKey(w.st))
    && (forall m, n | 0 <= m < n < |es| && es[m].Commit? && es[n].Commit? :: es[m].dek != es[n].dek)
  }

  ghost predicate ReplacedAt(w: World, codes: CodeFn, es: seq<Event>, n: nat)
    requires n < |es|
  {
    Replaces(After(w, codes, es[..n]), es[n])
  }

  /** A commit takes effect from `a` on and before `n`. */
  ghost predicate Replaced(w: World, codes: CodeFn, es: seq<Event>, a: nat, n: nat)
    requires n <= |es|
  {
    exists b :: a <= b < n && ReplacedAt(w, codes, es, b)
  }

  /** The event is no code check, or the second factor is sealed under the current key. */
  ghost predicate Genuine(w: World, codes: CodeFn, es: seq<Event>, n: nat)
    requires n < |es|
  {
    es[n].Check? ==>
      KeyAt(w, codes, es, n).Some? && Login.SecondFactorOpens(StateAt(w, codes, es, n), KeyAt(w, codes, es, n).value)
  }

  // ---- the key along a run ----

  lemma EffectOnKey(w: World, codes: CodeFn, e: Event)
    requires e.Elsewhere? ==> CurrentKey(e.store) == CurrentKey(w.st)
    ensures CurrentKey(Effect(w, codes, e).st) == if Replaces(w, e) then Some(e.dek) else CurrentKey(w.st)
    ensures Replaces(w, e) ==> CurrentKey(w.st).Some?
  {
    hide Validate, AllTransform, Tables.Recode, Tables.RoleAad;
  }

  lemma OneMore(w: World, codes: CodeFn, es: seq<Event>, n: nat)
    requires n < |es| && KeyKept(w, codes, es)
    ensures KeyAt(w, codes, es, n + 1) ==
      if ReplacedAt(w, codes, es, n) then Some(es[n].dek) else KeyAt(w, codes, es, n)
    ensures ReplacedAt(w, codes, es, n) ==> es[n].Commit?
  {
    assert es[..n + 1][..n] == es[..n];
    assert es[n].Elsewhere? ==> CurrentKey(es[n].store) == KeyAt(w, codes, es, n);
    hide Effect, CurrentKey, KeyKept;
    EffectOnKey(After(w, codes, es[..n]), codes, es[n]);
  }

  lemma {:induction false} KeyIsFrom(w: World, codes: CodeFn, es: seq<Event>, n: nat)
    requires n <= |es| && KeyKept(w, codes, es)
    ensures KeyAt(w, codes, es, n) == CurrentKey(w.st)
      || exists m :: 0 <= m < n && es[m].Commit? && KeyAt(w, codes, es, n) == Some(es[m].dek)
    decreases n
  {
    assert es[..0] == [];
    hide KeyKept, CurrentKey, ReplacedAt;
    if n > 0 {
      KeyIsFrom(w, codes, es, n - 1);
      OneMore(w, codes, es, n - 1);
      hide KeyAt;
    }
  }

  lemma DrawIsNew(w: World, codes: CodeFn, es: seq<Event>, a: nat, n: nat)
    requires a <= n < |es| && KeyKept(w, codes, es) && FreshKeys(w, es) && es[n].Commit?
    ensures KeyAt(w, codes, es, a) != Some(es[n].dek)
  {
    hide KeyKept, KeyAt, CurrentKey;
    KeyIsFrom(w, codes, es, a);
  }

  lemma ReplacedMore(w: World, codes: CodeFn, es: seq<Event>, a: nat, n: nat)
    requires a <= n < |es|
    ensures Replaced(w, codes, es, a, n + 1) <==> Replaced(w, codes, es, a, n) || ReplacedAt(w, codes, es, n)
  {
    hide ReplacedAt;
  }

  /** With fresh keys the key of an earlier time is in force exactly when no commit has
      taken effect since. */
  lemma {:induction false} KeyMoves(w: World, codes: CodeFn, es: seq<Event>, a: nat, n: nat)
    requires a <= n <= |es| && KeyKept(w, codes, es) && FreshKeys(w, es)
    ensures KeyAt(w, codes, es, n) == KeyAt(w, codes, es, a) <==> !Replaced(w, codes, es, a, n)
    decreases n
  {
    hide KeyKept, KeyAt, ReplacedAt, FreshKeys, CurrentKey;
    if n > a {
      KeyMoves(w, codes, es, a, n - 1);
      OneMore(w, codes, es, n - 1);
      if ReplacedAt(w, codes, es, n - 1) {
        DrawIsNew(w, codes, es, a, n - 1);
      }
      ReplacedMore(w, codes, es, a, n - 1);
      hide Replaced;
    }
  }

  // ---- where a session's key comes from ----

  predicate Reads(e: Event) {
    e.Unwrap? || e.Check? || e.Commit?
  }

  /** The key was in force once, and right after it was read exactly if that was genuine. */
  ghost predicate Origin(w: World, codes: CodeFn, es: seq<Event>, h: Held) {
    && h.read < |es| && Reads(es[h.read])
    && (exists j :: 0 <= j <= h.read + 1 && KeyAt(w, codes, es, j) == Some(h.dek))
    && (KeyAt(w, codes, es, h.read + 1) == Some(h.dek) <==> Genuine(w, codes, es, h.read))
  }

  /** What was read among the first `n` events. */
  ghost function From(w: World, codes: CodeFn, es: seq<Event>, n: nat): iset<Held> {
    iset h: Held | h.read < n && Origin(w, codes, es, h)
  }

  ghost predicate AllIn(now: World, good: iset<Held>) {
    && (forall i | i in now.calls && !now.calls[i].Over? :: now.calls[i].held in good)
    && (forall id | id in now.pending :: now.pending[id] in good)
    && (forall id | id in now.unlocked :: now.unlocked[id] in good)
  }

  ghost predicate AllFrom(w: World, codes: CodeFn, es: seq<Event>, n: nat, now: World) {
    now.clock == n && AllIn(now, From(w, codes, es, n))
  }

  lemma UnwrapOrigin(w: World, codes: CodeFn, es: seq<Event>, n: nat, dek: Bytes)
    requires n < |es| && KeyKept(w, codes, es) && es[n].Unwrap?
    requires Unlock(StateAt(w, codes, es, n), es[n].passphrase) == Ok(dek)
    ensures Origin(w, codes, es, Held(dek, n))
  {
    UnlocksTo(StateAt(w, codes, es, n), es[n].passphrase, dek);
    assert KeyAt(w, codes, es, n) == Some(dek) && Reads(es[n]);
    hide KeyKept, StateAt, KeyAt, CurrentKey, ReplacedAt, Reads;
    OneMore(w, codes, es, n);
  }

  lemma CommitOrigin(w: World, codes: CodeFn, es: seq<Event>, n: nat)
    requires n < |es| && KeyKept(w, codes, es) && ReplacedAt(w, codes, es, n)
    ensures es[n].Commit? && Origin(w, codes, es, Held(es[n].dek, n))
  {
    hide KeyKept, KeyAt, ReplacedAt;
    OneMore(w, codes, es, n);
  }

  lemma CheckOrigin(w: World, codes: CodeFn, es: seq<Event>, n: nat, h: Held)
    requires n < |es| && KeyKept(w, codes, es) && es[n].Check? && h.read < n && Origin(w, codes, es, h)
    requires VerifyLoginTotp(StateAt(w, codes, es, n), codes, h.dek, es[n].code, es[n].now).1 == Ok(true)
    ensures Origin(w, codes, es, Held(h.dek, n))
  {
    CodeKeyExactly(StateAt(w, codes, es, n), codes, h.dek, es[n].code, es[n].now);
    assert KeyAt(w, codes, es, n) == CurrentKey(StateAt(w, codes, es, n));
    assert Reads(es[n]);
    hide KeyKept, StateAt, KeyAt, CurrentKey, VerifyLoginTotp, ReplacedAt, Reads, Login.SecondFactorOpens;
    OneMore(w, codes, es, n);
    var j :| 0 <= j <= h.read + 1 && KeyAt(w, codes, es, j) == Some(h.dek);
    assert j <= n + 1;
  }

  lemma CodeKeyExactly(st: State, codes: CodeFn, key: Bytes, code: string, now: Clock)
    requires VerifyLoginTotp(st, codes, key, code, now).1 == Ok(true)
    ensures CurrentKey(st) == Some(key) <==> CurrentKey(st).Some? && Login.SecondFactorOpens(st, CurrentKey(st).value)
  {
    hide Validate, Tables.RoleAad;
  }

  /** An event takes up at most one key that was not held before, and this one. */
  ghost predicate TakesUp(now: World, codes: CodeFn, e: Event, h: Held) {
    match e
    case Unwrap(i, passphrase) => i !in now.calls && Unlock(now.st, passphrase) == Ok(h.dek)
    case Check(i, id, code, clock) =>
      && i !in now.calls && id in now.pending && h.dek == now.pending[id].dek
      && VerifyLoginTotp(now.st, codes, h.dek, code, clock).1 == Ok(true)
    case Commit(_, _, _, _, _, _) => Replaces(now, e) && h.dek == e.dek
    case _ => false
  }

  lemma EffectStaysIn(now: World, codes: CodeFn, e: Event, good: iset<Held>)
    requires AllIn(now, good)
    requires forall h: Held | h.read == now.clock && TakesUp(now, codes, e, h) :: h in good
    ensures AllIn(Effect(now, codes, e), good)
  {
    hide VerifyLoginTotp, Rekey, Unlock, VaultSpec.TotpEnabled;
    if e.Unwrap? {
      var r := Unlock(now.st, e.passphrase);
      assert e.call !in now.calls && r.Ok? ==> TakesUp(now, codes, e, Held(r.value, now.clock));
    } else if e.Check? && e.id in now.pending {
      var h := Held(now.pending[e.id].dek, now.clock);
      assert e.call !in now.calls && VerifyLoginTotp(now.st, codes, h.dek, e.code, e.now).1 == Ok(true) ==>
        TakesUp(now, codes, e, h);
    } else if e.Commit? {
      var r := Rekey(now.st, e.passphrase, e.params, e.nonce, e.dek, e.nonces).1;
      assert e.call !in now.calls && r.Ok? ==> TakesUp(now, codes, e, Held(e.dek, now.clock));
    }
  }

  lemma TakenUpHasOrigin(w: World, codes: CodeFn, es: seq<Event>, n: nat, now: World, h: Held)
    requires n < |es| && KeyKept(w, codes, es) && now == After(w, codes, es[..n]) && AllFrom(w, codes, es, n, now)
    requires h.read == n && TakesUp(now, codes, es[n], h)
    ensures Origin(w, codes, es, h)
  {
    assert StateAt(w, codes, es, n) == now.st;
    assert ReplacedAt(w, codes, es, n) == Replaces(now, es[n]);
    hide After, KeyKept, Origin, VerifyLoginTotp, Rekey, Unlock, Replaces, StateAt, ReplacedAt;
    match es[n]
    case Unwrap(_, _) => UnwrapOrigin(w, codes, es, n, h.dek);
    case Commit(_, _, _, _, _, _) => CommitOrigin(w, codes, es, n);
    case Check(_, id, _, _) => CheckOrigin(w, codes, es, n, now.pending[id]);
    case _ =>
  }

  lemma StepFrom(w: World, codes: CodeFn, es: seq<Event>, n: nat)
    requires n < |es| && KeyKept(w, codes, es) && AllFrom(w, codes, es, n, After(w, codes, es[..n]))
    ensures AllFrom(w, codes, es, n + 1, After(w, codes, es[..n + 1]))
  {
    var now, e := After(w, codes, es[..n]), es[n];
    assert es[..n + 1][..n] == es[..n];
    assert After(w, codes, es[..n + 1]) == Effect(now, codes, e).(clock := n + 1);
    forall h: Held | h.read == n && TakesUp(now, codes, e, h) ensures Origin(w, codes, es, h) {
      TakenUpHasOrigin(w, codes, es, n, now, h);
    }
    hide After, KeyKept, Origin, Effect, TakesUp;
    EffectStaysIn(now, codes, e, From(w, codes, es, n + 1));
  }

  lemma {:induction false} RunFrom(w: World, codes: CodeFn, es: seq<Event>, n: nat)
    requires n <= |es| && KeyKept(w, codes, es) && Begins(w)
    ensures AllFrom(w, codes, es, n, After(w, codes, es[..n]))
    decreases n
  {
    hide AllFrom, KeyKept, Next;
    if n == 0 {
      Nothing(w, codes, es);
    } else {
      RunFrom(w, codes, es, n - 1);
      StepFrom(w, codes, es, n - 1);
    }
  }

  /** No call has begun and there is no session. */
  predicate Begins(w: World) {
    w.clock == 0 && w.calls == map[] && w.pending == map[] && w.unlocked == map[]
  }

  lemma Nothing(w: World, codes: CodeFn, es: seq<Event>)
    requires Begins(w)
    ensures AllFrom(w, codes, es, 0, After(w, codes, es[..0]))
  {
    assert es[..0] == [];
  }

  /** However logins, code posts, rekeys and other changes interleave at their reads and
      writes: an unlocked session holds the current key exactly when what read its key,
      an unwrap, a check or its own commit, was genuine, and no commit has taken effect
      since. That the session was entered into the map later makes no difference, so it
      is outdated from birth exactly when a commit fell in between. */
  lemma HeldIsCurrentExactly(w: World, codes: CodeFn, es: seq<Event>, id: string)
    requires Begins(w) && KeyKept(w, codes, es) && FreshKeys(w, es) && id in After(w, codes, es).unlocked
    ensures var h := After(w, codes, es).unlocked[id];
      && h.read < |es| && Reads(es[h.read])
      && (CurrentKey(After(w, codes, es).st) == Some(h.dek) <==>
            Genuine(w, codes, es, h.read) && !Replaced(w, codes, es, h.read + 1, |es|))
  {
    hide After, Begins, KeyKept, FreshKeys, KeyAt, CurrentKey, Replaced, Genuine, Origin, Reads;
    OriginOf(w, codes, es, id);
    KeyAtEnd(w, codes, es);
    OriginDecides(w, codes, es, After(w, codes, es).unlocked[id]);
  }

  lemma KeyAtEnd(w: World, codes: CodeFn, es: seq<Event>)
    ensures KeyAt(w, codes, es, |es|) == CurrentKey(After(w, codes, es).st)
  {
    assert es[..|es|] == es;
  }

  lemma OriginDecides(w: World, codes: CodeFn, es: seq<Event>, h: Held)
    requires KeyKept(w, codes, es) && FreshKeys(w, es) && Origin(w, codes, es, h)
    ensures h.read < |es| && Reads(es[h.read])
    ensures KeyAt(w, codes, es, |es|) == Some(h.dek) <==>
      Genuine(w, codes, es, h.read) && !Replaced(w, codes, es, h.read + 1, |es|)
  {
    hide KeyKept, FreshKeys, KeyAt, ReplacedAt, Genuine, Reads;
    if KeyAt(w, codes, es, h.read + 1) == Some(h.dek) {
      KeyMoves(w, codes, es, h.read + 1, |es|);
    } else {
      var j :| 0 <= j <= h.read + 1 && KeyAt(w, codes, es, j) == Some(h.dek);
      KeyMoves(w, codes, es, j, h.read + 1);
      KeyMoves(w, codes, es, j, |es|);
    }
  }

  lemma OriginOf(w: World, codes: CodeFn, es: seq<Event>, id: string)
    requires Begins(w) && KeyKept(w, codes, es) && id in After(w, codes, es).unlocked
    ensures Origin(w, codes, es, After(w, codes, es).unlocked[id])
  {
    RunFrom(w, codes, es, |es|);
    assert es[..|es|] == es;
    hide After, Origin, KeyKept;
  }

  // ---- a login that nothing interrupts, and one that a rekey does ----

  lemma ThreeEvents(w: World, codes: CodeFn, a: Event, b: Event, c: Event)
    ensures After(w, codes, [a, b, c]) == Next(Next(Next(w, codes, a), codes, b), codes, c)
  {
    hide Next;
    assert [a, b, c][..2] == [a, b] && [a, b][..1] == [a] && [a][..0] == [];
    assert After(w, codes, [a]) == Next(After(w, codes, []), codes, a);
    assert After(w, codes, [a, b]) == Next(After(w, codes, [a]), codes, b);
  }

  /** An uninterrupted login gives what the whole handler does: the key the passphrase
      unwraps, at once or to wait for a code, and nothing for a wrong passphrase. */
  lemma WholeLogin(w: World, codes: CodeFn, i: nat, passphrase: Bytes, id: string)
    requires i !in w.calls
    ensures var w', r := After(w, codes, [Unwrap(i, passphrase), LookFlag(i), Enter(i, id)]), Unlock(w.st, passphrase);
      && w'.st == w.st
      && (if r.Ok? && VaultSpec.TotpEnabled(w.st) == Ok(true) then
            w'.pending == w.pending[id := Held(r.value, w.clock)] && w'.unlocked == w.unlocked
          else if r.Ok? then
            w'.unlocked == w.unlocked[id := Held(r.value, w.clock)] && w'.pending == w.pending
          else w'.pending == w.pending && w'.unlocked == w.unlocked)
  {
    ThreeEvents(w, codes, Unwrap(i, passphrase), LookFlag(i), Enter(i, id));
    hide After, Unlock, VaultSpec.TotpEnabled;
  }

  lemma TwoEvents(w: World, codes: CodeFn, a: Event, b: Event)
    ensures After(w, codes, [a, b]) == Next(Next(w, codes, a), codes, b)
  {
    hide Next;
    assert [a, b][..1] == [a] && [a][..0] == [];
    assert After(w, codes, [a]) == Next(After(w, codes, []), codes, a);
  }

  /** An uninterrupted code post gives what the whole handler does: an accepted code turns
      the waiting session into an unlocked one with its key, any other changes none. */
  lemma WholeCode(w: World, codes: CodeFn, i: nat, id: string, code: string, now: Clock, newId: string)
    requires i !in w.calls && id in w.pending
    ensures var w' := After(w, codes, [Check(i, id, code, now), Promote(i, newId)]);
      var (st, r) := VerifyLoginTotp(w.st, codes, w.pending[id].dek, code, now);
      && w'.st == st
      && (if r == Ok(true) then
            w'.pending == w.pending - {id} && w'.unlocked == w.unlocked[newId := Held(w.pending[id].dek, w.clock)]
          else w'.pending == w.pending && w'.unlocked == w.unlocked)
  {
    TwoEvents(w, codes, Check(i, id, code, now), Promote(i, newId));
    hide After, VerifyLoginTotp;
  }

  /** And so does a rekey: one that succeeds gives its key to the asking session alone. */
  lemma WholeRekey(w: World, codes: CodeFn, e: Event, id: string)
    requires e.Commit? && e.call !in w.calls && id in w.unlocked
    ensures var w' := After(w, codes, [e, Give(e.call, id)]);
      var (st, r) := Rekey(w.st, e.passphrase, e.params, e.nonce, e.dek, e.nonces);
      && w'.st == st && w'.pending == w.pending
      && w'.unlocked == if r.Ok? then w.unlocked[id := Held(e.dek, w.clock)] else w.unlocked
  {
    TwoEvents(w, codes, e, Give(e.call, id));
    hide After, Rekey;
  }

  /** A rekey that commits between the unwrap and the entry leaves the session outdated
      from birth, though the passphrase was right and no rekey comes after. */
  lemma OutdatedFromBirth(w: World, codes: CodeFn, passphrase: Bytes, dek: Sealing.Dek, plain: Tables.Rows<Bytes>,
                          e: Event)
    requires w.calls == map[] && w.st.rows.totp.None? && Lifecycle.Consistent(w.st, passphrase, dek, plain)
    requires e.Commit? && e.call == 1 && e.passphrase == passphrase && e.dek != dek
    ensures var w' := Next(After(w, codes, [Unwrap(0, passphrase), LookFlag(0), e]), codes, Enter(0, "s"));
      && "s" in w'.unlocked && w'.unlocked["s"].dek == dek
      && Unlock(w'.st, passphrase) == Ok(e.dek)
  {
    ConsistentUnlocks(w.st, passphrase, dek, plain);
    hide Lifecycle.Consistent, Rekey, Unlock, VaultSpec.TotpEnabled, Next;
    Lifecycle.RekeyPreservesMeaning(w.st, passphrase, dek, plain, e.params, e.nonce, e.dek, e.nonces);
    ConsistentUnlocks(Rekey(w.st, passphrase, e.params, e.nonce, e.dek, e.nonces).0, passphrase, e.dek, plain);
    ThreeEvents(w, codes, Unwrap(0, passphrase), LookFlag(0), e);
    Interrupted(w, codes, passphrase, dek, e);
    hide After;
  }

  lemma ConsistentUnlocks(st: State, passphrase: Bytes, dek: Bytes, plain: Tables.Rows<Bytes>)
    requires Lifecycle.Consistent(st, passphrase, dek, plain)
    ensures Unlock(st, passphrase) == Ok(dek) && (st.rows.totp.None? ==> VaultSpec.TotpEnabled(st) == Ok(false))
  {
    hide Sealing.Seals, Tables.Intact;
  }

  lemma Interrupted(w: World, codes: CodeFn, passphrase: Bytes, dek: Bytes, e: Event)
    requires w.calls == map[] && Unlock(w.st, passphrase) == Ok(dek) && VaultSpec.TotpEnabled(w.st) == Ok(false)
    requires e.Commit? && e.call == 1
    ensures var w3 := Next(Next(Next(w, codes, Unwrap(0, passphrase)), codes, LookFlag(0)), codes, e);
      var w' := Next(w3, codes, Enter(0, "s"));
      && "s" in w'.unlocked && w'.unlocked["s"].dek == dek
      && w'.st == Rekey(w.st, e.passphrase, e.params, e.nonce, e.dek, e.nonces).0
  {
    hide Rekey, Unlock, VaultSpec.TotpEnabled;
  }
}
