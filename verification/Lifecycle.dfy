/** What the vault operations keep, one call at a time. */
module Lifecycle {
  import opened Common
  import opened Aead
  import opened Aad
  import opened Tables
  import opened Sealing
  import opened Totp
  import opened VaultSpec

  /** The passphrase unwraps `dek`, and `dek` reads the whole store as `plain`. */
  ghost predicate Consistent(st: State, passphrase: Bytes, dek: Bytes, plain: Rows<Bytes>) {
    && Unlock(st, passphrase) == Ok(dek)
    && |dek| == KEY_LEN
    && Seals(st.rows, plain, dek)
    && Intact(st.rows)
  }

  /** No passphrase but the right one unwraps anything. */
  lemma OnlyThePassphrase(st: State, passphrase: Bytes, dek: Bytes, other: Bytes)
    requires Unlock(st, passphrase) == Ok(dek) && other != passphrase
    ensures Unlock(st, other) == Err(BadPassphrase)
  {
  }

  /** A rekey replaces every ciphertext and nothing else: the same rows, links,
      sizes and consumed one-time step, the same plaintext under the new key, and
      nothing left that the old key opens. */
  lemma RekeyPreservesMeaning(
    st: State, passphrase: Bytes, dek: Dek, plain: Rows<Bytes>,
    params: KdfParams, wrapNonce: Bytes, newDek: Dek, nonces: Cell -> Bytes)
    requires Consistent(st, passphrase, dek, plain)
    ensures var (st', r) := Rekey(st, passphrase, params, wrapNonce, newDek, nonces);
      && r == Ok(newDek)
      && Consistent(st', passphrase, newDek, plain)
      && SameShape(st.rows, st'.rows)
      && st'.vault.value.totpLast == st.vault.value.totpLast
      && st'.vault.value.epoch == st.vault.value.epoch + 1
      && (newDek != dek ==> forall c | Has(st.rows, c) && Has(st'.rows, c) ::
            Get(st'.rows, c) != Get(st.rows, c) && Open(Raw(dek), Get(st'.rows, c), RoleAad(c)).Err?)
  {
    hide Seals, Recode, SameShape, AllTransform, Intact, Transform, Transformed, RoleAad, Get, Has;
    ResealRows(st.rows, plain, dek, newDek, nonces);
  }

  lemma ResealRows(rows: Rows<Blob>, plain: Rows<Bytes>, dek: Dek, newDek: Dek, nonces: Cell -> Bytes)
    requires Seals(rows, plain, dek)
    ensures var f := Transform(dek, newDek, nonces); var rows' := Recode(rows, Transformed(f));
      && AllTransform(rows, f)
      && Seals(rows', plain, newDek)
      && SameShape(rows, rows')
      && (Intact(rows) ==> Intact(rows'))
      && (newDek != dek ==> forall c | Has(rows', c) ::
            Has(rows, c) && Get(rows', c) != Get(rows, c) && Open(Raw(dek), Get(rows', c), RoleAad(c)).Err?)
  {
    var f := Transform(dek, newDek, nonces);
    var rows' := Recode(rows, Transformed(f));
    SealsShape(rows, plain, dek);
    hide RoleAad, Recode, Intact, SameShape, Seals, Transform, Transformed, Get, Has;
    RecodeLaw(rows, Transformed(f));
    ShapeIntact(rows, rows');
    ShapeTransitive(rows, rows', plain);
    forall c | Has(rows, c)
      ensures Has(plain, c) && f(c, Get(rows, c)) == Ok(ResealedCell(newDek, nonces, c, Get(plain, c)))
    {
      ShapeHas(rows, plain, c);
      ResealCell(rows, plain, dek, newDek, nonces, c);
    }
    forall c | Has(rows', c)
      ensures Has(rows, c) && Has(plain, c) && Get(rows', c) == ResealedCell(newDek, nonces, c, Get(plain, c))
    {
      ShapeHas(rows, rows', c);
      ShapeHas(rows, plain, c);
      ResealCell(rows, plain, dek, newDek, nonces, c);
    }
    SealedCellsSeal(rows', plain, newDek, nonces);
  }

  lemma SealsShape(rows: Rows<Blob>, plain: Rows<Bytes>, dek: Bytes)
    requires Seals(rows, plain, dek)
    ensures SameShape(rows, plain)
  {
  }

  function ResealedCell(dek: Bytes, nonces: Cell -> Bytes, c: Cell, v: Bytes): Blob {
    Sealed(Raw(dek), nonces(c), RoleAad(c), v)
  }

  lemma ResealCell(rows: Rows<Blob>, plain: Rows<Bytes>, dek: Dek, newDek: Dek, nonces: Cell -> Bytes, c: Cell)
    requires Seals(rows, plain, dek) && Has(rows, c)
    ensures var f := Transform(dek, newDek, nonces); var b := ResealedCell(newDek, nonces, c, Get(plain, c));
      && f(c, Get(rows, c)) == Ok(b)
      && Transformed(f)(c, Get(rows, c)) == b
      && (newDek != dek ==> b != Get(rows, c) && Open(Raw(dek), b, RoleAad(c)).Err?)
  {
    ShapeHas(rows, plain, c);
    hide RoleAad, Get, Has;
    assert Open(Raw(dek), Get(rows, c), RoleAad(c)) == Ok(Get(plain, c));
  }

  lemma SealedCellsSeal(rows: Rows<Blob>, plain: Rows<Bytes>, dek: Dek, nonces: Cell -> Bytes)
    requires SameShape(rows, plain)
    requires forall c | Has(rows, c) :: Get(rows, c) == ResealedCell(dek, nonces, c, Get(plain, c))
    ensures Seals(rows, plain, dek)
  {
    hide RoleAad, Get, Has;
  }

  /** A rekey that fails leaves the state as it was, and it fails exactly when the
      passphrase is wrong or some ciphertext does not open under the stored key. */
  lemma RekeyAllOrNothing(st: State, passphrase: Bytes, params: KdfParams, wrapNonce: Bytes, newDek: Dek,
        nonces: Cell -> Bytes)
    ensures var (st', r) := Rekey(st, passphrase, params, wrapNonce, newDek, nonces);
      && (r.Err? ==> st' == st)
      && (r.Ok? <==>
            Unlock(st, passphrase).Ok? && forall c | Ciphertext(st.rows, c) ::
              Open(Raw(Unlock(st, passphrase).value), Get(st.rows, c), RoleAad(c)).Ok?)
  {
    if Unlock(st, passphrase).Ok? {
      var f := Transform(Unlock(st, passphrase).value, newDek, nonces);
      forall c | Ciphertext(st.rows, c)
        ensures f(c, Get(st.rows, c)).Ok? <==> Open(Raw(Unlock(st, passphrase).value), Get(st.rows, c), RoleAad(c)).Ok?
      {
      }
    }
  }

  /** The first setup: the passphrase unwraps the new key over an empty store. */
  lemma SetupEstablishes(st: State, passphrase: Bytes, params: KdfParams, dek: Dek, nonce: Bytes)
    requires st.vault.None? && Intact(st.rows) && !HasData(st)
    ensures var (st', r) := Setup(st, passphrase, params, dek, nonce);
      r == Ok(dek) && st'.vault.value.epoch == 1 && Consistent(st', passphrase, dek, Empty())
  {
    NoProjectsNoRows(st.rows);
  }

  /** `HasData` counts projects only; with the foreign keys that is enough. */
  lemma NoProjectsNoRows<T>(r: Rows<T>)
    requires Intact(r) && r.projects == map[]
    ensures r.environments == map[] && r.folders == map[] && r.secrets == map[] && r.attachments == map[]
  {
    assert forall id | id in r.environments :: false;
    assert forall id | id in r.folders :: r.folders[id].environment in r.environments;
  }

  /** Re-wrapping a key is sound for exactly the keys that read the store: the
      current one, or any key at all over a store without ciphertext. */
  lemma ChangePassphraseExactly(
    st: State, passphrase: Bytes, dek: Dek, plain: Rows<Bytes>,
    given: Dek, newPassphrase: Bytes, params: KdfParams, nonce: Bytes)
    requires Consistent(st, passphrase, dek, plain)
    ensures var (st', r) := ChangePassphrase(st, given, newPassphrase, params, nonce);
      && r == Ok(())
      && st'.rows == st.rows
      && st'.vault.value.epoch == st.vault.value.epoch + 1
      && st'.vault.value.totpLast == st.vault.value.totpLast
      && Unlock(st', newPassphrase) == Ok(given)
      && (newPassphrase != passphrase ==> Unlock(st', passphrase) == Err(BadPassphrase))
      && (Consistent(st', newPassphrase, given, plain) <==> given == dek || !exists c :: Has(st.rows, c))
  {
    if given != dek && exists c :: Has(st.rows, c) {
      var c :| Has(st.rows, c);
      assert Open(Raw(dek), Get(st.rows, c), RoleAad(c)).Ok?;
      assert Open(Raw(given), Get(st.rows, c), RoleAad(c)).Err?;
    }
  }

  /** A write that fills in cells keeps the store readable under the current key
      for exactly the callers that hold that key. */
  lemma WriteExactly(st: State, passphrase: Bytes, dek: Dek, plain: Rows<Bytes>, given: Dek, e: Edit<Bytes>,
      nonces: Cell -> Bytes)
    requires Consistent(st, passphrase, dek, plain)
    requires !IsDelete(e) && Apply(plain, e).Ok?
    ensures var (st', r) := Write(st, given, e, nonces);
      && r == Ok(())
      && ((exists plain' :: Consistent(st', passphrase, dek, plain')) <==> given == dek)
      && (given == dek ==> Consistent(st', passphrase, dek, Apply(plain, e).value))
  {
    var (st', r) := Write(st, given, e, nonces);
    EditShape(plain, st.rows, e, Sealer(given, nonces));
    EditsKeepIntact(st.rows, SealEdit(e, given, nonces));
    hide Apply, RoleAad, SealEdit, Intact, SameShape;
    if given == dek {
      EditCommutes(st.rows, plain, dek, e, nonces);
      assert Consistent(st', passphrase, dek, Apply(plain, e).value);
    } else {
      StaleWrite(st.rows, dek, given, e, nonces);
      hide Has, Get;
    }
  }

  /** What a caller with another key writes does not open under the current one. */
  lemma StaleWrite(rows: Rows<Blob>, dek: Dek, given: Dek, e: Edit<Bytes>, nonces: Cell -> Bytes)
    requires given != dek && !IsDelete(e) && Apply(rows, SealEdit(e, given, nonces)).Ok?
    ensures var rows' := Apply(rows, SealEdit(e, given, nonces)).value;
      exists c :: Has(rows', c) && Open(Raw(dek), Get(rows', c), RoleAad(c)).Err?
  {
    var c := SomeWritten(e);
    MapEditWrites(e, Sealer(given, nonces), c);
    assert IsDelete(SealEdit(e, given, nonces)) == IsDelete(e);
    EditCell(rows, SealEdit(e, given, nonces), c);
    hide Apply, MapEdit, Written, RoleAad, Has, Get;
  }

  function SomeWritten<T>(e: Edit<T>): (c: Cell)
    requires !IsDelete(e)
    ensures c in Written(e)
  {
    if e.NewProject? || e.RenameProject? then Cell(Projects, NameEnc, e.id)
    else if e.NewEnvironment? || e.RenameEnvironment? then Cell(Environments, NameEnc, e.id)
    else if e.NewFolder? || e.RenameFolder? then Cell(Folders, NameEnc, e.id)
    else if e.NewAttachment? then Cell(Attachments, DataEnc, e.id)
    else Cell(Secrets, ValueEnc, e.id)
  }

  // ---- the TOTP column ----

  predicate OpensTo(dek: Bytes, c: Cell, b: Blob, v: Bytes) {
    Open(Raw(dek), b, RoleAad(c)) == Ok(v)
  }

  lemma TotpColumn(enc: Rows<Blob>, plain: Rows<Bytes>, dek: Bytes, a: Option<Blob>, b: Option<Bytes>)
    requires Seals(enc, plain, dek) && Intact(enc)
    requires a.Some? == b.Some?
    requires a.Some? ==> OpensTo(dek, TOTP_CELL, a.value, b.value)
    ensures Seals(enc.(totp := a), plain.(totp := b), dek) && Intact(enc.(totp := a))
  {
    var enc', plain' := enc.(totp := a), plain.(totp := b);
    forall c | Has(enc', c)
      ensures OpensTo(dek, c, Get(enc', c), Get(plain', c))
    {
      if c != TOTP_CELL {
        assert Has(enc, c);
      }
    }
  }

  /** A second factor is due exactly while the column holds a ciphertext that a rekey
      carries over. */
  lemma DueExactly(st: State)
    ensures VaultSpec.TotpEnabled(st) == Ok(true) <==> st.vault.Some? && Ciphertext(st.rows, TOTP_CELL)
  {
  }

  /** Dropping the second factor leaves the rest readable. */
  lemma DropKeeps(st: State, passphrase: Bytes, dek: Dek, plain: Rows<Bytes>)
    requires Consistent(st, passphrase, dek, plain)
    ensures Consistent(DisableTotp(st), passphrase, dek, plain.(totp := None))
  {
    TotpColumn(st.rows, plain, dek, None, None);
    hide Seals, Intact;
  }

  /** The update that enables the second factor. */
  function WithTotp(st: State, enc: Blob, step: int): State {
    if st.vault.None? then st else State(Some(st.vault.value.(totpLast := step)), st.rows.(totp := Some(enc)))
  }

  /** Storing a second factor, sealed under any data key, leaves the vault readable
      exactly when that key is the current one. From then on a code is accepted exactly
      for a holder of the sealing key: under an outdated one no login that unwraps the
      key from now on gets through, while one still pending with the outdated key does. */
  lemma WithTotpExactly(st: State, passphrase: Bytes, dek: Dek, plain: Rows<Bytes>, given: Dek, secret: Bytes,
                        nonce: Bytes, step: int)
    requires Consistent(st, passphrase, dek, plain)
    ensures var st' := WithTotp(st, Sealed(Raw(given), nonce, RoleAad(TOTP_CELL), secret), step);
      && Unlock(st', passphrase) == Ok(dek) && TotpEnabled(st') == Ok(true)
      && ((exists plain' :: Consistent(st', passphrase, dek, plain')) <==> given == dek)
      && (given == dek ==> Consistent(st', passphrase, dek, plain.(totp := Some(secret))))
      && (forall codes, key, code, now :: VerifyLoginTotp(st', codes, key, code, now).1 == Ok(true) <==>
            key == given && Validate(codes, secret, code, now, step).Accepted?)
      && (given != dek ==> forall codes, code, now ::
            VerifyLoginTotp(st', codes, dek, code, now) == (st', Err(Decrypt)))
  {
    var blob := Sealed(Raw(given), nonce, RoleAad(TOTP_CELL), secret);
    var st' := WithTotp(st, blob, step);
    if given == dek {
      TotpColumn(st.rows, plain, dek, Some(blob), Some(secret));
      assert Consistent(st', passphrase, dek, plain.(totp := Some(secret)));
    } else {
      assert Has(st'.rows, TOTP_CELL) && Open(Raw(dek), Get(st'.rows, TOTP_CELL), RoleAad(TOTP_CELL)).Err?;
    }
    hide Validate, RoleAad, Intact;
  }

  /** The same for an enrolment whose code is accepted, whatever key it is given. */
  lemma EnrolExactly(st: State, passphrase: Bytes, dek: Dek, plain: Rows<Bytes>, codes: CodeFn, given: Dek,
                     secret: Bytes, code: string, now: Clock, nonce: Bytes)
    requires Consistent(st, passphrase, dek, plain) && Validate(codes, secret, code, now, -1).Accepted?
    ensures var (st', r) := ConfirmTotp(st, codes, given, secret, code, now, nonce);
      && r == Ok(true) && Unlock(st', passphrase) == Ok(dek) && TotpEnabled(st') == Ok(true)
      && ((exists plain' :: Consistent(st', passphrase, dek, plain')) <==> given == dek)
      && (given == dek ==> Consistent(st', passphrase, dek, plain.(totp := Some(secret))))
      && (forall codes', key, code', now' :: VerifyLoginTotp(st', codes', key, code', now').1 == Ok(true) <==>
            key == given && Validate(codes', secret, code', now', st'.vault.value.totpLast).Accepted?)
      && (given != dek ==> forall codes', code', now' ::
            VerifyLoginTotp(st', codes', dek, code', now') == (st', Err(Decrypt)))
  {
    WithTotpExactly(st, passphrase, dek, plain, given, secret, nonce, Validate(codes, secret, code, now, -1).step);
    hide Validate, RoleAad, Consistent, VerifyLoginTotp;
  }
}
