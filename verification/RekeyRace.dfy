/** Rekeys and passphrase changes that overlap. A rekey touches the database three
    times: it reads the vault row, it reads it again to unwrap the key, and it runs
    one transaction. A passphrase change unwraps the key, reads the row for its
    epoch, and writes a wrap. Other calls and other writes may fall between. */
module RekeyRace {
  import opened Common
  import opened Aead
  import opened Tables
  import opened Sealing
  import opened VaultSpec
  import opened Lifecycle
  import Totp

  datatype Phase =
    | Idle
    | HasRow(epoch: int)                                         // a rekey
    | HasKey(epoch: int, oldDek: Bytes, given: Bytes)
    | Verified(dek: Bytes)                                       // a passphrase change
    | HasEpoch(epoch: int, dek: Bytes)
    | Ended(ok: bool)

  /** The shared state, the progress of every call, and the passphrase of the last
      wrap written. */
  datatype World = World(st: State, calls: seq<Phase>, inForce: Bytes)

  datatype Event =
    | ReadRow(call: nat)
    | ReadKey(call: nat, given: Bytes)
    | Commit(call: nat, params: KdfParams, wrapNonce: Bytes, newDek: Dek, nonces: Cell -> Bytes)
    | Verify(call: nat, given: Bytes)
    | ReadEpoch(call: nat)
    | Rewrap(call: nat, passphrase: Bytes, params: KdfParams, nonce: Bytes)
    | EditNow(edit: Edit<Bytes>, nonces: Cell -> Bytes) // this and the next by a session holding the current key
    | EnrolNow(secret: Bytes, nonce: Bytes, step: int)
    | DropNow                                           // the second factor is dropped

  predicate ReadyToCommit(w: World, ev: Event) {
    ev.Commit? && ev.call < |w.calls| && w.calls[ev.call].HasKey? && w.st.vault.Some?
  }

  predicate ReadyToRewrap(w: World, ev: Event) {
    ev.Rewrap? && ev.call < |w.calls| && w.calls[ev.call].HasEpoch? && w.st.vault.Some?
  }

  ghost function AfterCommit(w: World, ev: Event): World
    requires ReadyToCommit(w, ev)
  {
    var call := w.calls[ev.call];
    var (st, r) := Reseal(w.st, call.oldDek, call.epoch + 1, call.given, ev.params, ev.wrapNonce, ev.newDek, ev.nonces);
    World(st, w.calls[ev.call := Ended(r.Ok?)], if r.Ok? then call.given else w.inForce)
  }

  function AfterRewrap(w: World, ev: Event): World
    requires ReadyToRewrap(w, ev)
  {
    var call := w.calls[ev.call];
    var wrapped := Wrap(call.epoch + 1, ev.passphrase, ev.params, ev.nonce, call.dek);
    var row := VaultRow(call.epoch + 1, ev.params, wrapped, 0);
    World(w.st.(vault := Some(Rewrapped(w.st.vault.value, row))), w.calls[ev.call := Ended(true)], ev.passphrase)
  }

  /** One event; an event that its call is not ready for does nothing. */
  ghost function Next(w: World, ev: Event): World {
    match ev
    case ReadRow(i) =>
      if i < |w.calls| && w.calls[i].Idle? then
        w.(calls := w.calls[i := if w.st.vault.Some? then HasRow(w.st.vault.value.epoch) else Ended(false)])
      else w
    case ReadKey(i, given) =>
      if i < |w.calls| && w.calls[i].HasRow? then
        var r := Unlock(w.st, given);
        w.(calls := w.calls[i := if r.Ok? then HasKey(w.calls[i].epoch, r.value, given) else Ended(false)])
      else w
    case Commit(_, _, _, _, _) => if ReadyToCommit(w, ev) then AfterCommit(w, ev) else w
    case Verify(i, given) =>
      if i < |w.calls| && w.calls[i].Idle? then
        var r := Unlock(w.st, given);
        w.(calls := w.calls[i := if r.Ok? then Verified(r.value) else Ended(false)])
      else w
    case ReadEpoch(i) =>
      if i < |w.calls| && w.calls[i].Verified? then
        var read := if w.st.vault.Some? then HasEpoch(w.st.vault.value.epoch, w.calls[i].dek) else Ended(false);
        w.(calls := w.calls[i := read])
      else w
    case Rewrap(_, _, _, _) => if ReadyToRewrap(w, ev) then AfterRewrap(w, ev) else w
    case EditNow(edit, nonces) =>
      var r := Unlock(w.st, w.inForce);
      if r.Ok? then w.(st := Write(w.st, r.value, edit, nonces).0) else w
    case EnrolNow(secret, nonce, step) =>
      var r := Unlock(w.st, w.inForce);
      if r.Ok? then w.(st := WithTotp(w.st, Sealed(Raw(r.value), nonce, RoleAad(TOTP_CELL), secret), step)) else w
    case DropNow => w.(st := DisableTotp(w.st))
  }

  /** What the events mean to the user: only writes and enrolments mean anything. */
  function NextPlain(plain: Rows<Bytes>, ev: Event): Rows<Bytes> {
    match ev
    case EditNow(edit, _) => if Apply(plain, edit).Ok? then Apply(plain, edit).value else plain
    case EnrolNow(secret, _, _) => plain.(totp := Some(secret))
    case DropNow => plain.(totp := None)
    case _ => plain
  }

  predicate HoldsKeyOf(p: Phase, size: nat) {
    (p.HasKey? ==> |p.oldDek| == size) && (p.Verified? || p.HasEpoch? ==> |p.dek| == size)
  }

  /** The passphrase in force unwraps a key that reads the store as `plain`. */
  ghost predicate Sound(w: World, plain: Rows<Bytes>) {
    && Unlock(w.st, w.inForce).Ok?
    && Consistent(w.st, w.inForce, Key(w), plain)
    && forall i | 0 <= i < |w.calls| :: HoldsKeyOf(w.calls[i], KEY_LEN)
  }

  function Key(w: World): Bytes
    requires Unlock(w.st, w.inForce).Ok?
  {
    Unlock(w.st, w.inForce).value
  }

  ghost predicate AnyCiphertext(r: Rows<Blob>) {
    exists c :: Has(r, c)
  }

  // ---- the transaction of a rekey, on the state ----

  lemma ResealCurrent(st: State, passphrase: Bytes, dek: Dek, plain: Rows<Bytes>, epoch: int, given: Bytes,
                      params: KdfParams, nonce: Bytes, newDek: Dek, nonces: Cell -> Bytes)
    requires Consistent(st, passphrase, dek, plain)
    ensures var (st', r) := Reseal(st, dek, epoch, given, params, nonce, newDek, nonces);
      r == Ok(newDek) && st'.vault.Some? && st'.vault.value.epoch == epoch && Consistent(st', given, newDek, plain)
  {
    ResealRows(st.rows, plain, dek, newDek, nonces);
    hide Seals, Intact, Recode, SameShape, AllTransform, RoleAad, Get, Has;
  }

  lemma ResealStale(st: State, passphrase: Bytes, dek: Dek, plain: Rows<Bytes>, stale: Dek, epoch: int, given: Bytes,
                    params: KdfParams, nonce: Bytes, newDek: Dek, nonces: Cell -> Bytes)
    requires Consistent(st, passphrase, dek, plain) && stale != dek && AnyCiphertext(st.rows)
    ensures Reseal(st, stale, epoch, given, params, nonce, newDek, nonces) == (st, Err(Decrypt))
  {
    var f := Transform(stale, newDek, nonces);
    var c :| Has(st.rows, c);
    StaleFails(st.rows, plain, dek, stale, newDek, nonces, c);
    hide Transform, Has, Get, Seals, Intact, RoleAad;
  }

  lemma StaleFails(rows: Rows<Blob>, plain: Rows<Bytes>, dek: Dek, stale: Dek, newDek: Dek, nonces: Cell -> Bytes,
        c: Cell)
    requires Seals(rows, plain, dek) && stale != dek && Has(rows, c)
    ensures Ciphertext(rows, c) && Transform(stale, newDek, nonces)(c, Get(rows, c)).Err?
  {
    hide RoleAad, Get, SameShape;
    assert Open(Raw(dek), Get(rows, c), RoleAad(c)).Ok?;
  }

  lemma ResealNothing(st: State, passphrase: Bytes, dek: Dek, plain: Rows<Bytes>, any: Dek, epoch: int, given: Bytes,
                      params: KdfParams, nonce: Bytes, newDek: Dek, nonces: Cell -> Bytes)
    requires Consistent(st, passphrase, dek, plain) && !AnyCiphertext(st.rows)
    ensures var (st', r) := Reseal(st, any, epoch, given, params, nonce, newDek, nonces);
      r == Ok(newDek) && st'.vault.Some? && st'.vault.value.epoch == epoch && Consistent(st', given, newDek, plain)
  {
    var f := Transform(any, newDek, nonces);
    NothingTransforms(st.rows, f);
    hide Seals, Intact, Recode, AllTransform, AnyCiphertext, Transform, Transformed, RoleAad, Get, Has;
    EmptyReseals(st.rows, plain, dek, Transformed(f), newDek);
  }

  lemma NothingTransforms(rows: Rows<Blob>, f: (Cell, Blob) -> Result<Blob>)
    requires !AnyCiphertext(rows)
    ensures AllTransform(rows, f)
  {
    hide Has, Get;
  }

  lemma EmptyReseals(rows: Rows<Blob>, plain: Rows<Bytes>, dek: Bytes, f: (Cell, Blob) -> Blob, newDek: Dek)
    requires Seals(rows, plain, dek) && Intact(rows) && !AnyCiphertext(rows)
    ensures Seals(Recode(rows, f), plain, newDek) && Intact(Recode(rows, f))
  {
    RecodeLaw(rows, f);
    ShapeIntact(rows, Recode(rows, f));
    ShapeTransitive(rows, Recode(rows, f), plain);
    hide Recode, Intact, SameShape, Has, Get, RoleAad;
    forall c ensures !Has(Recode(rows, f), c) {
      ShapeHas(rows, Recode(rows, f), c);
    }
  }

  // ---- what a commit does ----

  /** Exactly when a rekey commits, what it leaves, and when the epoch rises by one:
      it succeeds when its key is current or there is nothing to transform, stores the
      epoch after the one it read, and puts the passphrase it was given into force,
      whichever was in force before. Otherwise it changes nothing. */
  lemma CommitExactly(w: World, plain: Rows<Bytes>, ev: Event)
    requires Sound(w, plain) && ReadyToCommit(w, ev)
    ensures var w', call := Next(w, ev), w.calls[ev.call];
      && Sound(w', plain)
      && (if call.oldDek == Key(w) || !AnyCiphertext(w.st.rows) then
            && w'.calls == w.calls[ev.call := Ended(true)]
            && w'.inForce == call.given && Key(w') == ev.newDek
            && w'.st.vault.value.epoch == call.epoch + 1
            && (w'.st.vault.value.epoch == w.st.vault.value.epoch + 1 <==> call.epoch == w.st.vault.value.epoch)
          else
            w'.st == w.st && w'.inForce == w.inForce && w'.calls == w.calls[ev.call := Ended(false)])
  {
    var call, w' := w.calls[ev.call], Next(w, ev);
    assert |call.oldDek| == KEY_LEN;
    if call.oldDek == Key(w) {
      ResealCurrent(w.st, w.inForce, Key(w), plain, call.epoch + 1, call.given, ev.params, ev.wrapNonce,
        ev.newDek, ev.nonces);
    } else if AnyCiphertext(w.st.rows) {
      ResealStale(w.st, w.inForce, Key(w), plain, call.oldDek, call.epoch + 1, call.given, ev.params, ev.wrapNonce,
        ev.newDek, ev.nonces);
    } else {
      ResealNothing(w.st, w.inForce, Key(w), plain, call.oldDek, call.epoch + 1, call.given, ev.params,
        ev.wrapNonce, ev.newDek, ev.nonces);
    }
    CommitSound(w, plain, ev);
    hide Reseal, AnyCiphertext, Seals, Intact;
  }

  /** The world after a commit is as sound as its state. */
  lemma CommitSound(w: World, plain: Rows<Bytes>, ev: Event)
    requires Sound(w, plain) && ReadyToCommit(w, ev)
    ensures var w' := AfterCommit(w, ev); var call := w.calls[ev.call];
      var (st', r) := Reseal(w.st, call.oldDek, call.epoch + 1, call.given, ev.params, ev.wrapNonce,
        ev.newDek, ev.nonces);
      if r.Ok? then Consistent(st', call.given, ev.newDek, plain) ==> Sound(w', plain)
      else st' == w.st ==> Sound(w', plain)
  {
    hide Reseal, Seals, Intact, Unlock;
  }

  // ---- what a passphrase change writes ----

  /** The key is still current, or there is nothing to read. */
  ghost predicate Timely(w: World, ev: Event)
    requires Unlock(w.st, w.inForce).Ok?
  {
    ReadyToRewrap(w, ev) ==> w.calls[ev.call].dek == Key(w) || !AnyCiphertext(w.st.rows)
  }

  /** A passphrase change always writes its wrap, at the epoch after the one it read;
      the vault can be read afterwards exactly when the key it wrapped is timely. */
  lemma RewrapExactly(w: World, plain: Rows<Bytes>, ev: Event)
    requires Sound(w, plain) && ReadyToRewrap(w, ev)
    ensures var w', call := Next(w, ev), w.calls[ev.call];
      && w'.calls == w.calls[ev.call := Ended(true)] && w'.st.rows == w.st.rows && w'.inForce == ev.passphrase
      && Unlock(w'.st, ev.passphrase) == Ok(call.dek)
      && w'.st.vault.value.epoch == call.epoch + 1
      && (w'.st.vault.value.epoch == w.st.vault.value.epoch + 1 <==> call.epoch == w.st.vault.value.epoch)
      && (Timely(w, ev) ==> Sound(w', plain))
      && ((exists plain' :: Sound(w', plain')) <==> Timely(w, ev))
  {
    var w', call := Next(w, ev), w.calls[ev.call];
    assert Unlock(w'.st, ev.passphrase) == Ok(call.dek);
    if Timely(w, ev) {
      OtherKeySeals(w.st.rows, plain, Key(w), call.dek);
    } else {
      DeadKey(w.st.rows, plain, Key(w), call.dek);
    }
    hide Seals, Intact, AnyCiphertext, Unlock;
  }

  lemma OtherKeySeals(rows: Rows<Blob>, plain: Rows<Bytes>, dek: Bytes, other: Bytes)
    requires Seals(rows, plain, dek) && (other == dek || !AnyCiphertext(rows))
    ensures Seals(rows, plain, other)
  {
    hide SameShape, Has, Get, RoleAad;
  }

  lemma DeadKey(rows: Rows<Blob>, plain: Rows<Bytes>, dek: Bytes, other: Bytes)
    requires Seals(rows, plain, dek) && other != dek && AnyCiphertext(rows)
    ensures forall plain' :: !Seals(rows, plain', other)
  {
    var c :| Has(rows, c);
    forall plain' ensures !Seals(rows, plain', other) {
      if Seals(rows, plain', other) {
        KeyUnique(rows, plain, dek, plain', other, c);
      }
    }
    hide Has;
  }

  // ---- whole runs ----

  lemma OtherEventsKeepSound(w: World, plain: Rows<Bytes>, ev: Event)
    requires Sound(w, plain) && !ev.Commit? && !ev.Rewrap?
    ensures Sound(Next(w, ev), NextPlain(plain, ev))
  {
    if ev.EditNow? {
      EditCommutes(w.st.rows, plain, Key(w), ev.edit, ev.nonces);
      EditsKeepIntact(w.st.rows, SealEdit(ev.edit, Key(w), ev.nonces));
      hide Seals, Intact, Apply, SealEdit;
    } else if ev.EnrolNow? {
      WithTotpExactly(w.st, w.inForce, Key(w), plain, Key(w), ev.secret, ev.nonce, ev.step);
      hide Seals, Intact, Unlock, WithTotp, RoleAad;
    } else if ev.DropNow? {
      DropKeeps(w.st, w.inForce, Key(w), plain);
      hide Seals, Intact;
    } else {
      UnlockGivesUsableKeys(w, plain);
      hide Seals, Intact, Unlock;
    }
  }

  /** Any passphrase that unwraps a sound vault unwraps its key. */
  lemma UnlockGivesUsableKeys(w: World, plain: Rows<Bytes>)
    requires Sound(w, plain)
    ensures forall given :: Unlock(w.st, given).Ok? ==> given == w.inForce && |Unlock(w.st, given).value| == KEY_LEN
  {
    hide Seals, Intact;
    forall given | Unlock(w.st, given).Ok? ensures given == w.inForce {
      if given != w.inForce {
        OnlyThePassphrase(w.st, w.inForce, Key(w), given);
      }
    }
  }

  lemma NextExactly(w: World, plain: Rows<Bytes>, ev: Event)
    requires Sound(w, plain)
    ensures Sound(Next(w, ev), NextPlain(plain, ev)) <==> Timely(w, ev)
  {
    if ReadyToCommit(w, ev) {
      CommitExactly(w, plain, ev);
    } else if ReadyToRewrap(w, ev) {
      RewrapExactly(w, plain, ev);
    } else if !ev.Commit? && !ev.Rewrap? {
      OtherEventsKeepSound(w, plain, ev);
    }
    hide Sound, AfterCommit, AfterRewrap, AnyCiphertext, Unlock;
  }

  ghost function After(w: World, evs: seq<Event>): World
    decreases |evs|
  {
    if evs == [] then w else After(Next(w, evs[0]), evs[1..])
  }

  function AfterPlain(plain: Rows<Bytes>, evs: seq<Event>): Rows<Bytes>
    decreases |evs|
  {
    if evs == [] then plain else AfterPlain(NextPlain(plain, evs[0]), evs[1..])
  }

  /** Sound all along, with the content that the writes alone would have made. */
  ghost predicate StaysSound(w: World, plain: Rows<Bytes>, evs: seq<Event>)
    decreases |evs|
  {
    Sound(w, plain) && (evs != [] ==> StaysSound(Next(w, evs[0]), NextPlain(plain, evs[0]), evs[1..]))
  }

  /** No passphrase change ever wraps a key that is no longer current. */
  ghost predicate AllTimely(w: World, evs: seq<Event>)
    decreases |evs|
  {
    evs != [] ==> Unlock(w.st, w.inForce).Ok? && Timely(w, evs[0]) && AllTimely(Next(w, evs[0]), evs[1..])
  }

  /** For any number of rekeys and passphrase changes, with any passphrases, in any
      interleaving of their steps with each other and with writes: the passphrase in
      force always unwraps a key that opens every ciphertext exactly when no
      passphrase change wraps a key that was replaced since it verified it. */
  lemma {:induction false} RacesKeepExactly(w: World, plain: Rows<Bytes>, evs: seq<Event>)
    requires Sound(w, plain)
    ensures StaysSound(w, plain, evs) <==> AllTimely(w, evs)
    decreases |evs|
  {
    if evs != [] {
      NextExactly(w, plain, evs[0]);
      var w', plain' := Next(w, evs[0]), NextPlain(plain, evs[0]);
      assert Unlock(w.st, w.inForce).Ok?;
      if Sound(w', plain') {
        RacesKeepExactly(w', plain', evs[1..]);
      }
      hide Sound, Next, NextPlain, Timely, Unlock;
    }
  }

  /** In particular rekeys alone never lose the vault. */
  lemma {:induction false} RacesKeepTheVault(w: World, plain: Rows<Bytes>, evs: seq<Event>)
    requires Sound(w, plain) && forall k | 0 <= k < |evs| :: !evs[k].Rewrap?
    ensures Sound(After(w, evs), AfterPlain(plain, evs))
    decreases |evs|
  {
    if evs != [] {
      NextExactly(w, plain, evs[0]);
      hide Sound, Next, NextPlain;
      RacesKeepTheVault(Next(w, evs[0]), NextPlain(plain, evs[0]), evs[1..]);
    }
  }

  // ---- uninterrupted calls, and calls that are overtaken ----

  datatype Draws = Draws(params: KdfParams, nonce: Bytes, dek: Dek, nonces: Cell -> Bytes)

  function RekeyEvents(i: nat, given: Bytes, d: Draws): seq<Event> {
    [ReadRow(i), ReadKey(i, given), Commit(i, d.params, d.nonce, d.dek, d.nonces)]
  }

  function ChangeEvents(i: nat, current: Bytes, passphrase: Bytes, d: Draws): seq<Event> {
    [Verify(i, current), ReadEpoch(i), Rewrap(i, passphrase, d.params, d.nonce)]
  }

  lemma {:induction false} AfterBoth(w: World, a: seq<Event>, b: seq<Event>)
    ensures After(w, a + b) == After(After(w, a), b)
    decreases |a|
  {
    hide Next;
    if a == [] {
      assert a + b == b;
    } else {
      assert (a + b)[1..] == a[1..] + b;
      AfterBoth(Next(w, a[0]), a[1..], b);
    }
  }

  lemma OneEvent(w: World, a: Event)
    ensures After(w, [a]) == Next(w, a)
  {
    assert [a][1..] == [];
    assert After(Next(w, a), []) == Next(w, a);
    hide Next;
  }

  lemma ThreeEvents(w: World, a: Event, b: Event, c: Event)
    ensures After(w, [a, b, c]) == Next(Next(Next(w, a), b), c)
  {
    hide Next, After;
    assert [a, b, c] == [a] + ([b] + [c]);
    AfterBoth(w, [a], [b] + [c]);
    AfterBoth(Next(w, a), [b], [c]);
    OneEvent(w, a);
    OneEvent(Next(w, a), b);
    OneEvent(Next(Next(w, a), b), c);
  }

  /** A rekey that nothing interrupts raises the epoch by one and keeps the passphrase. */
  lemma WholeRekey(w: World, plain: Rows<Bytes>, i: nat, d: Draws)
    requires Sound(w, plain) && i < |w.calls| && w.calls[i].Idle?
    ensures var w' := After(w, RekeyEvents(i, w.inForce, d));
      && Sound(w', plain) && w'.inForce == w.inForce && Key(w') == d.dek
      && w'.calls == w.calls[i := Ended(true)]
      && w'.st.vault.value.epoch == w.st.vault.value.epoch + 1
      && (AnyCiphertext(w'.st.rows) <==> AnyCiphertext(w.st.rows))
  {
    var ready := Ready(w, plain, i);
    ThreeEvents(w, ReadRow(i), ReadKey(i, w.inForce), Commit(i, d.params, d.nonce, d.dek, d.nonces));
    CommitExactly(ready, plain, Commit(i, d.params, d.nonce, d.dek, d.nonces));
    var w' := After(w, RekeyEvents(i, w.inForce, d));
    SameContentSameCells(w.st.rows, w'.st.rows, plain, Key(w), Key(w'));
    hide AnyCiphertext, Seals, Intact, Unlock, Next;
  }

  lemma SameContentSameCells(a: Rows<Blob>, b: Rows<Blob>, plain: Rows<Bytes>, dek: Bytes, dek': Bytes)
    requires Seals(a, plain, dek) && Seals(b, plain, dek')
    ensures AnyCiphertext(a) <==> AnyCiphertext(b)
  {
    hide RoleAad, Get;
    forall c ensures Has(a, c) <==> Has(b, c) {
      ShapeHas(a, plain, c);
      ShapeHas(b, plain, c);
    }
    hide Has, SameShape;
  }

  /** After its two reads a rekey holds the current key and epoch. */
  lemma Ready(w: World, plain: Rows<Bytes>, i: nat) returns (ready: World)
    requires Sound(w, plain) && i < |w.calls| && w.calls[i].Idle?
    ensures ready == Next(Next(w, ReadRow(i)), ReadKey(i, w.inForce))
    ensures ready == w.(calls := w.calls[i := HasKey(w.st.vault.value.epoch, Key(w), w.inForce)])
    ensures Sound(ready, plain)
  {
    ready := Next(Next(w, ReadRow(i)), ReadKey(i, w.inForce));
    assert w.calls[i := HasRow(w.st.vault.value.epoch)][i := HasKey(w.st.vault.value.epoch, Key(w), w.inForce)]
      == w.calls[i := HasKey(w.st.vault.value.epoch, Key(w), w.inForce)];
    hide Seals, Intact, Unlock;
  }

  lemma ReadsEpoch(w: World, plain: Rows<Bytes>, i: nat)
    requires Sound(w, plain) && i < |w.calls| && w.calls[i].Verified?
    ensures w.st.vault.Some?
    ensures Next(w, ReadEpoch(i)) == w.(calls := w.calls[i := HasEpoch(w.st.vault.value.epoch, w.calls[i].dek)])
    ensures Sound(Next(w, ReadEpoch(i)), plain)
  {
    hide Seals, Intact;
  }

  lemma ReadsKey(w: World, plain: Rows<Bytes>, i: nat)
    requires Sound(w, plain) && i < |w.calls| && w.calls[i].HasRow?
    ensures w.st.vault.Some?
    ensures Next(w, ReadKey(i, w.inForce)) == w.(calls := w.calls[i := HasKey(w.calls[i].epoch, Key(w), w.inForce)])
    ensures Sound(Next(w, ReadKey(i, w.inForce)), plain)
  {
    hide Seals, Intact;
  }

  lemma Verifies(w: World, plain: Rows<Bytes>, i: nat)
    requires Sound(w, plain) && i < |w.calls| && w.calls[i].Idle?
    ensures Next(w, Verify(i, w.inForce)) == w.(calls := w.calls[i := Verified(Key(w))])
    ensures Sound(Next(w, Verify(i, w.inForce)), plain)
  {
    hide Seals, Intact, Unlock;
  }

  /** A passphrase change that nothing interrupts raises the epoch by one, keeps key
      and content, and leaves the new passphrase as the only one. */
  lemma WholeChange(w: World, plain: Rows<Bytes>, i: nat, passphrase: Bytes, d: Draws)
    requires Sound(w, plain) && i < |w.calls| && w.calls[i].Idle?
    ensures var w' := After(w, ChangeEvents(i, w.inForce, passphrase, d));
      && Sound(w', plain) && w'.inForce == passphrase && Key(w') == Key(w) && w'.st.rows == w.st.rows
      && w'.calls == w.calls[i := Ended(true)]
      && w'.st.vault.value.epoch == w.st.vault.value.epoch + 1
  {
    var w1 := Next(w, Verify(i, w.inForce));
    var w2 := Next(w1, ReadEpoch(i));
    var ev := Rewrap(i, passphrase, d.params, d.nonce);
    hide Seals, Intact, AnyCiphertext, Unlock, Next, After;
    ThreeEvents(w, Verify(i, w.inForce), ReadEpoch(i), ev);
    Verifies(w, plain, i);
    ReadsEpoch(w1, plain, i);
    assert w2 == w.(calls := w.calls[i := HasEpoch(w.st.vault.value.epoch, Key(w))]);
    RewrapExactly(w2, plain, ev);
  }

  /** An enrolment between the steps of others is what the vault does on a fitting code,
      for a caller with the current key. */
  lemma WholeEnrolment(w: World, plain: Rows<Bytes>, codes: Totp.CodeFn, secret: Bytes, code: string, now: Totp.Clock,
      nonce: Bytes)
    requires Sound(w, plain) && Totp.Validate(codes, secret, code, now, -1).Accepted?
    ensures var step := Totp.Validate(codes, secret, code, now, -1).step;
      ConfirmTotp(w.st, codes, Key(w), secret, code, now, nonce) ==
        (Next(w, EnrolNow(secret, nonce, step)).st, Ok(true))
  {
    hide Totp.Validate, RoleAad, Seals, Intact;
  }

  /** A passphrase change overtaken by a rekey writes a wrap of the key before: over
      any ciphertext at all the vault is lost, though both calls report success. */
  lemma OvertakenChangeLosesTheVault(w: World, plain: Rows<Bytes>, passphrase: Bytes, d: Draws, e: Draws)
    requires Sound(w, plain) && w.calls == [Idle, Idle] && AnyCiphertext(w.st.rows) && d.dek != Key(w)
    ensures var begun := Next(w, Verify(0, w.inForce));
      var rekeyed := After(begun, RekeyEvents(1, w.inForce, d));
      var late := Next(Next(rekeyed, ReadEpoch(0)), Rewrap(0, passphrase, e.params, e.nonce));
      && Sound(rekeyed, plain) && late.calls == [Ended(true), Ended(true)]
      && Unlock(late.st, passphrase) == Ok(Key(w))
      && forall plain' :: !Sound(late, plain')
  {
    var begun := Next(w, Verify(0, w.inForce));
    Verifies(w, plain, 0);
    hide Seals, Intact, AnyCiphertext, Unlock, After, Next, Sound;
    WholeRekey(begun, plain, 1, d);
    var rekeyed := After(begun, RekeyEvents(1, w.inForce, d));
    ReadsEpoch(rekeyed, plain, 0);
    var ready := Next(rekeyed, ReadEpoch(0));
    RewrapExactly(ready, plain, Rewrap(0, passphrase, e.params, e.nonce));
  }

  /** A rekey overtaken by a passphrase change puts the passphrase before back into
      force, and the new one, whose change was reported done, opens nothing. */
  lemma OvertakenRekeyRestoresThePassphrase(w: World, plain: Rows<Bytes>, passphrase: Bytes, d: Draws, e: Draws)
    requires Sound(w, plain) && w.calls == [Idle, Idle] && passphrase != w.inForce
    ensures var begun := Next(Next(w, ReadRow(0)), ReadKey(0, w.inForce));
      var changed := After(begun, ChangeEvents(1, w.inForce, passphrase, e));
      var late := Next(changed, Commit(0, d.params, d.nonce, d.dek, d.nonces));
      && Sound(changed, plain) && changed.inForce == passphrase
      && Sound(late, plain) && late.inForce == w.inForce && late.calls == [Ended(true), Ended(true)]
      && Unlock(late.st, passphrase) == Err(BadPassphrase)
      && late.st.vault.value.epoch == changed.st.vault.value.epoch
  {
    var begun := Ready(w, plain, 0);
    hide Seals, Intact, AnyCiphertext, After, Next, Unlock;
    WholeChange(begun, plain, 1, passphrase, e);
    var changed := After(begun, ChangeEvents(1, w.inForce, passphrase, e));
    CommitExactly(changed, plain, Commit(0, d.params, d.nonce, d.dek, d.nonces));
    OnlyThePassphrase(Next(changed, Commit(0, d.params, d.nonce, d.dek, d.nonces)).st, w.inForce, d.dek, passphrase);
  }

  /** The worlds when two rekeys have run inside a third, and when that one ends. */
  ghost function Overtaken(w: World, d: Draws): (World, World) {
    var begun := Next(w, ReadRow(0));
    var both := After(After(begun, RekeyEvents(1, w.inForce, d)), RekeyEvents(2, w.inForce, d));
    (both, Next(Next(both, ReadKey(0, w.inForce)), Commit(0, d.params, d.nonce, d.dek, d.nonces)))
  }

  function Epoch(w: World): int {
    if w.st.vault.Some? then w.st.vault.value.epoch else 0
  }

  /** The overtaken rekey commits an epoch below theirs, and the vault stays readable
      all the same. */
  lemma EpochMayDrop(w: World, plain: Rows<Bytes>, d: Draws)
    requires Sound(w, plain) && w.calls == [Idle, Idle, Idle]
    ensures var (both, late) := Overtaken(w, d);
      && Sound(both, plain) && Sound(late, plain) && late.calls == [Ended(true), Ended(true), Ended(true)]
      && Epoch(both) == Epoch(w) + 2 && Epoch(late) == Epoch(w) + 1
  {
    hide Seals, Intact, AnyCiphertext, After, Next, Sound, Unlock, Key, RekeyEvents, Consistent;
    var begun := Next(w, ReadRow(0));
    BeginsSound(w, plain);
    TwoRekeys(begun, plain, d);
    LateCommit(Overtaken(w, d).0, plain, d);
  }

  lemma TwoRekeys(w: World, plain: Rows<Bytes>, d: Draws)
    requires Sound(w, plain) && |w.calls| == 3 && w.calls[1] == Idle && w.calls[2] == Idle
    ensures var both := After(After(w, RekeyEvents(1, w.inForce, d)), RekeyEvents(2, w.inForce, d));
      && Sound(both, plain) && both.inForce == w.inForce
      && both.calls == [w.calls[0], Ended(true), Ended(true)] && Epoch(both) == Epoch(w) + 2
  {
    hide Seals, Intact, AnyCiphertext, After, Next, Sound, Unlock, Key, RekeyEvents, Consistent;
    var first := After(w, RekeyEvents(1, w.inForce, d));
    WholeRekey(w, plain, 1, d);
    WholeRekey(first, plain, 2, d);
    SoundHasVault(w, plain);
    SoundHasVault(first, plain);
    SoundHasVault(After(first, RekeyEvents(2, w.inForce, d)), plain);
  }

  lemma SoundHasVault(w: World, plain: Rows<Bytes>)
    requires Sound(w, plain)
    ensures w.st.vault.Some?
  {
  }

  lemma LateCommit(w: World, plain: Rows<Bytes>, d: Draws)
    requires Sound(w, plain) && |w.calls| > 0 && w.calls[0].HasRow?
    ensures var late := Next(Next(w, ReadKey(0, w.inForce)), Commit(0, d.params, d.nonce, d.dek, d.nonces));
      Sound(late, plain) && late.calls == w.calls[0 := Ended(true)] && Epoch(late) == w.calls[0].epoch + 1
  {
    ReadsKey(w, plain, 0);
    hide Next, Sound, Unlock, Seals, Intact, AnyCiphertext;
    CommitExactly(Next(w, ReadKey(0, w.inForce)), plain, Commit(0, d.params, d.nonce, d.dek, d.nonces));
  }

  lemma BeginsSound(w: World, plain: Rows<Bytes>)
    requires Sound(w, plain) && |w.calls| > 0 && w.calls[0].Idle?
    ensures w.st.vault.Some? && Next(w, ReadRow(0)) == w.(calls := w.calls[0 := HasRow(w.st.vault.value.epoch)])
    ensures Sound(Next(w, ReadRow(0)), plain)
  {
    hide Seals, Intact;
  }
}
