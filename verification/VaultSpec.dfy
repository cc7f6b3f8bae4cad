/** What each vault operation does to the stored state, as functions: the class
    methods are proved against these, and the theorems are about them. */
module VaultSpec {
  import opened Common
  import opened Aead
  import opened Aad
  import opened Tables
  import opened Sealing
  import opened Totp

  datatype VaultRow = VaultRow(epoch: int, params: KdfParams, wrapped: Blob, totpLast: int)

  datatype State = State(vault: Option<VaultRow>, rows: Rows<Blob>)

  const NEW_STATE := State(None, Empty())

  function Wrap(epoch: int, passphrase: Bytes, params: KdfParams, nonce: Bytes, dek: Bytes): Blob {
    Sealed(Derived(passphrase, params), nonce, WrapAad(epoch, params), dek)
  }

  // ---- lifecycle ----

  function HasData(st: State): bool {
    st.rows.projects != map[]
  }

  function Setup(st: State, passphrase: Bytes, params: KdfParams, dek: Dek, nonce: Bytes): (State, Result<Bytes>) {
    if st.vault.Some? then (st, Err(AlreadyInit))
    else if HasData(st) then (st, Err(OrphanData))
    else
      var row := VaultRow(1, params, Wrap(1, passphrase, params, nonce, dek), 0);
      (State(Some(row), st.rows.(totp := None)), Ok(dek))
  }

  function Unlock(st: State, passphrase: Bytes): Result<Bytes> {
    match st.vault
    case None => Err(NotInit)
    case Some(v) =>
      var got := Open(Derived(passphrase, v.params), v.wrapped, WrapAad(v.epoch, v.params));
      if got.Ok? then got else Err(BadPassphrase)
  }

  /** Re-wraps whatever key it is given. */
  function ChangePassphrase(st: State, dek: Bytes, passphrase: Bytes, params: KdfParams, nonce: Bytes)
    : (State, Result<()>)
  {
    match st.vault
    case None => (st, Err(NotFound))
    case Some(v) =>
      var wrapped := Wrap(v.epoch + 1, passphrase, params, nonce, dek);
      var row := v.(epoch := v.epoch + 1, params := params, wrapped := wrapped);
      (st.(vault := Some(row)), Ok(()))
  }

  /** The ciphertexts a rekey reads: every cell, except an empty TOTP column. */
  predicate Ciphertext(r: Rows<Blob>, c: Cell) {
    Has(r, c) && (c.table.Vault? ==> Size(Get(r, c)) > 0)
  }

  /** Opening under the old key and sealing under the new one, in the same role. */
  function Transform(oldDek: Bytes, newDek: Bytes, nonces: Cell -> Bytes): (Cell, Blob) -> Result<Blob> {
    (c: Cell, b: Blob) =>
      match Open(Raw(oldDek), b, RoleAad(c))
      case Ok(plain) => Seal(Raw(newDek), nonces(c), plain, RoleAad(c))
      case Err(e) => Err(e)
  }

  /** The only way a transformation fails, for a given old key. */
  lemma OneTransformError(oldDek: Bytes, newDek: Dek, nonces: Cell -> Bytes)
    ensures forall c, b :: Transform(oldDek, newDek, nonces)(c, b).Err? ==>
      Transform(oldDek, newDek, nonces)(c, b).error == if UsableKey(Raw(oldDek)) then Decrypt else BadKey
  {
    forall c: Cell, b: Blob | Transform(oldDek, newDek, nonces)(c, b).Err?
      ensures Transform(oldDek, newDek, nonces)(c, b).error == if UsableKey(Raw(oldDek)) then Decrypt else BadKey
    {
      var got := Open(Raw(oldDek), b, RoleAad(c));
      assert got.Ok? ==> Transform(oldDek, newDek, nonces)(c, b) == Seal(Raw(newDek), nonces(c), got.value, RoleAad(c));
      assert got.Err? ==> Transform(oldDek, newDek, nonces)(c, b) == Err(got.error);
    }
  }

  /** The effect of a transaction that transforms every ciphertext. */
  function Transformed(f: (Cell, Blob) -> Result<Blob>): (Cell, Blob) -> Blob {
    (c: Cell, b: Blob) =>
      if c.table.Vault? && Size(b) == 0 then b else match f(c, b) case Ok(b') => b' case Err(_) => b
  }

  ghost predicate AllTransform(r: Rows<Blob>, f: (Cell, Blob) -> Result<Blob>) {
    forall c | Ciphertext(r, c) :: f(c, Get(r, c)).Ok?
  }

  /** `row` supplies the new wrap; the other columns of the vault row stay. */
  function Rewrapped(v: VaultRow, row: VaultRow): VaultRow {
    row.(totpLast := v.totpLast)
  }

  ghost function Rekey(st: State, passphrase: Bytes, params: KdfParams, wrapNonce: Bytes, newDek: Dek,
        nonces: Cell -> Bytes)
    : (State, Result<Bytes>)
  {
    match Unlock(st, passphrase)
    case Err(e) => (st, Err(e))
    case Ok(oldDek) => Reseal(st, oldDek, st.vault.value.epoch + 1, passphrase, params, wrapNonce, newDek, nonces)
  }

  /** The one transaction of a rekey, given what was read before it began. */
  ghost function Reseal(st: State, oldDek: Bytes, epoch: int, passphrase: Bytes, params: KdfParams,
      wrapNonce: Bytes, newDek: Dek, nonces: Cell -> Bytes)
    : (State, Result<Bytes>)
    requires st.vault.Some?
  {
    var f := Transform(oldDek, newDek, nonces);
    if AllTransform(st.rows, f) then
      var row := VaultRow(epoch, params, Wrap(epoch, passphrase, params, wrapNonce, newDek), st.vault.value.totpLast);
      (State(Some(row), Recode(st.rows, Transformed(f))), Ok(newDek))
    else (st, Err(if UsableKey(Raw(oldDek)) then Decrypt else BadKey))
  }

  // ---- content ----

  /** A write by a caller that holds `dek`. */
  function Write(st: State, dek: Bytes, e: Edit<Bytes>, nonces: Cell -> Bytes): (State, Result<()>) {
    if !IsDelete(e) && !UsableKey(Raw(dek)) then (st, Err(BadKey))
    else
      match Apply(st.rows, SealEdit(e, dek, nonces))
      case Ok(rows) => (st.(rows := rows), Ok(()))
      case Err(x) => (st, Err(x))
  }

  /** Every read path opens the cell it shows. */
  function Read(st: State, dek: Bytes, c: Cell): Result<Bytes> {
    if !Has(st.rows, c) then Err(NotFound) else Open(Raw(dek), Get(st.rows, c), RoleAad(c))
  }

  // ---- second factor ----

  const TOTP_CELL := Cell(Vault, TotpEnc, "1")

  function TotpEnabled(st: State): Result<bool> {
    if st.vault.None? then Err(NotFound) else Ok(st.rows.totp.Some? && Size(st.rows.totp.value) > 0)
  }

  function ConfirmTotp(st: State, codes: CodeFn, dek: Bytes, secret: Bytes, code: string, now: Clock,
      nonce: Bytes): (State, Result<bool>) {
    match Validate(codes, secret, code, now, -1)
    case Broken => (st, Err(BadSecret))
    case Refused => (st, Ok(false))
    case Accepted(step) =>
      match Seal(Raw(dek), nonce, secret, RoleAad(TOTP_CELL))
      case Err(e) => (st, Err(e))
      case Ok(enc) =>
        if st.vault.None? then (st, Ok(true)) // the update touches no row
        else (State(Some(st.vault.value.(totpLast := step)), st.rows.(totp := Some(enc))), Ok(true))
  }

  function VerifyLoginTotp(st: State, codes: CodeFn, dek: Bytes, code: string, now: Clock): (State, Result<bool>) {
    if st.vault.None? then (st, Err(NotFound))
    else if st.rows.totp.None? then (st, Err(if UsableKey(Raw(dek)) then Decrypt else BadKey))
    else
      match Open(Raw(dek), st.rows.totp.value, RoleAad(TOTP_CELL))
      case Err(e) => (st, Err(e))
      case Ok(secret) =>
        match Validate(codes, secret, code, now, st.vault.value.totpLast)
        case Broken => (st, Err(BadSecret))
        case Refused => (st, Ok(false))
        case Accepted(step) => (st.(vault := Some(st.vault.value.(totpLast := step))), Ok(true))
  }

  function DisableTotp(st: State): State {
    if st.vault.None? then st
    else State(Some(st.vault.value.(totpLast := 0)), st.rows.(totp := None))
  }
}
