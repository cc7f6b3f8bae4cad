/** The vault service: what the web handlers call. Random draws are parameters. */
module Vault {
  import opened Common
  import opened Memory
  import opened Aead
  import opened Aad
  import opened Tables
  import opened Sealing
  import opened Totp
  import opened VaultSpec
  import opened Store
  import opened Paths

  /** A key handed out in a buffer of its own. */
  ghost predicate Holds(r: Result<array<byte>>, want: Result<Bytes>)
    reads if r.Ok? then {r.value} else {}
  {
    match r
    case Ok(b) => want == Ok(b[..])
    case Err(e) => want == Err(e)
  }

  datatype SecretFull = SecretFull(id: Id, folder: string, name: Bytes, value: Bytes, notes: Bytes)

  datatype AttachmentData = AttachmentData(name: Bytes, data: Bytes)

  datatype SecretMeta = SecretMeta(id: Id, name: Bytes, hasNotes: bool)
  datatype TreeFolder = TreeFolder(id: Id, name: Bytes, secrets: seq<SecretMeta>)
  datatype TreeEnv = TreeEnv(id: Id, name: Bytes, folders: seq<TreeFolder>, secrets: seq<SecretMeta>)

  function MetaIds(ms: seq<SecretMeta>): seq<Id> {
    seq(|ms|, k requires 0 <= k < |ms| => ms[k].id)
  }

  function FolderIds(fs: seq<TreeFolder>): seq<Id> {
    seq(|fs|, k requires 0 <= k < |fs| => fs[k].id)
  }

  function EnvIds(es: seq<TreeEnv>): seq<Id> {
    seq(|es|, k requires 0 <= k < |es| => es[k].id)
  }

  // What a list shows: each matching row once, under its decrypted name.

  ghost predicate SecretShown(st: State, dek: Bytes, m: SecretMeta) {
    && m.id in st.rows.secrets
    && Read(st, dek, Cell(Secrets, NameEnc, m.id)) == Ok(m.name)
    && m.hasNotes == (Size(st.rows.secrets[m.id].notes) > EMPTY_CIPHER_LEN)
  }

  /** A stored name that does not open, with the error it gives. */
  predicate NameFails(st: State, dek: Bytes, c: Cell, e: Error) {
    c.column.NameEnc? && Has(st.rows, c) && Read(st, dek, c) == Err(e)
  }

  /** The names a list of an environment's folders opens. */
  ghost function FolderCells(r: Rows<Blob>, environment: Id): set<Cell> {
    (set f | f in ChildFolders(r, environment) :: Cell(Folders, NameEnc, f))
    + (set f, s | f in ChildFolders(r, environment) && s in FolderSecrets(r, f) :: Cell(Secrets, NameEnc, s))
  }

  /** The names a project's tree opens. */
  ghost function TreeCells(r: Rows<Blob>, project: Id): set<Cell> {
    (set e | e in ChildEnvironments(r, project) :: Cell(Environments, NameEnc, e))
    + (set e, c | e in ChildEnvironments(r, project) && c in FolderCells(r, e) :: c)
    + (set e, s | e in ChildEnvironments(r, project) && s in LooseSecrets(r, e) :: Cell(Secrets, NameEnc, s))
  }

  ghost predicate SecretsShown(st: State, dek: Bytes, ms: seq<SecretMeta>, ids: set<Id>) {
    && (forall k | 0 <= k < |ms| :: SecretShown(st, dek, ms[k]))
    && Enumerates(MetaIds(ms), ids)
  }

  ghost predicate FolderShown(st: State, dek: Bytes, f: TreeFolder) {
    && Read(st, dek, Cell(Folders, NameEnc, f.id)) == Ok(f.name)
    && SecretsShown(st, dek, f.secrets, FolderSecrets(st.rows, f.id))
  }

  ghost predicate FoldersShown(st: State, dek: Bytes, fs: seq<TreeFolder>, ids: set<Id>) {
    && (forall k | 0 <= k < |fs| :: FolderShown(st, dek, fs[k]))
    && Enumerates(FolderIds(fs), ids)
  }

  ghost predicate EnvShown(st: State, dek: Bytes, e: TreeEnv) {
    && Read(st, dek, Cell(Environments, NameEnc, e.id)) == Ok(e.name)
    && FoldersShown(st, dek, e.folders, ChildFolders(st.rows, e.id))
    && SecretsShown(st, dek, e.secrets, LooseSecrets(st.rows, e.id))
  }

  ghost predicate TreeShown(st: State, dek: Bytes, es: seq<TreeEnv>, ids: set<Id>) {
    && (forall k | 0 <= k < |es| :: EnvShown(st, dek, es[k]))
    && Enumerates(EnvIds(es), ids)
  }

  class Service {
    const db: DB
    const timeT: nat
    const memKiB: nat
    const par: nat

    constructor (db: DB, timeT: nat, memKiB: nat, par: nat)
      ensures this.db == db && this.timeT == timeT && this.memKiB == memKiB && this.par == par
    {
      this.db, this.timeT, this.memKiB, this.par := db, timeT, memKiB, par;
    }

    function Params(salt: Bytes): KdfParams {
      KdfParams(timeT, memKiB, par, salt)
    }

    // ---- lifecycle ----

    method Setup(passphrase: Bytes, salt: Bytes, newDek: Dek, nonce: Bytes) returns (r: Result<array<byte>>)
      modifies db
      ensures r.Ok? ==> fresh(r.value)
      ensures var (st, want) := VaultSpec.Setup(old(db.State()), passphrase, Params(salt), newDek, nonce);
        db.State() == st && Holds(r, want)
    {
      if db.vault.Some? {
        return Err(AlreadyInit);
      }
      if db.projects != map[] {
        return Err(OrphanData);
      }
      var p := Params(salt);
      var kek, aad := Derived(passphrase, p), WrapAad(1, p);
      var wrapped := Seal(kek, nonce, newDek, aad).value;
      assert Open(kek, wrapped, aad) == Ok(newDek); // the self-check before anything is stored
      var _ := db.InitVault(VaultRow(1, p, wrapped, 0));
      var dek := Buffer(newDek);
      return Ok(dek);
    }

    method Unlock(passphrase: Bytes) returns (r: Result<array<byte>>)
      ensures r.Ok? ==> fresh(r.value)
      ensures Holds(r, VaultSpec.Unlock(db.State(), passphrase))
    {
      if db.vault.None? {
        return Err(NotInit);
      }
      var v := db.vault.value;
      var got := Open(Derived(passphrase, v.params), v.wrapped, WrapAad(v.epoch, v.params));
      if got.Err? {
        return Err(BadPassphrase);
      }
      var dek := Buffer(got.value);
      return Ok(dek);
    }

    method ChangePassphrase(dek: Bytes, newPassphrase: Bytes, salt: Bytes, nonce: Bytes) returns (r: Result<()>)
      modifies db
      ensures (db.State(), r) == VaultSpec.ChangePassphrase(old(db.State()), dek, newPassphrase, Params(salt), nonce)
    {
      if db.vault.None? {
        return Err(NotFound);
      }
      var p, epoch := Params(salt), db.vault.value.epoch + 1;
      var kek, aad := Derived(newPassphrase, p), WrapAad(epoch, p);
      var wrapped := Seal(kek, nonce, dek, aad).value;
      assert Open(kek, wrapped, aad) == Ok(dek); // the self-check tests the new wrap only
      db.UpdateVaultWrap(VaultRow(epoch, p, wrapped, 0));
      return Ok(());
    }

    method Rekey(passphrase: Bytes, salt: Bytes, wrapNonce: Bytes, newDek: Dek, nonces: Cell -> Bytes)
      returns (r: Result<array<byte>>)
      modifies db
      ensures r.Ok? ==> fresh(r.value)
      ensures var (st, want) := VaultSpec.Rekey(old(db.State()), passphrase, Params(salt), wrapNonce, newDek, nonces);
        db.State() == st && Holds(r, want)
    {
      if db.vault.None? {
        return Err(NotInit);
      }
      var v := db.vault.value;
      var unlocked := Unlock(passphrase);
      if unlocked.Err? {
        return Err(unlocked.error);
      }
      var oldDek := unlocked.value;
      ghost var key := oldDek[..];
      var p, epoch := Params(salt), v.epoch + 1;
      var wrapped := Seal(Derived(passphrase, p), wrapNonce, newDek, WrapAad(epoch, p)).value;
      var done := db.RekeyTx(Transform(oldDek[..], newDek, nonces), VaultRow(epoch, p, wrapped, 0));
      Zero(oldDek);
      if done.Err? {
        OneTransformError(key, newDek, nonces);
        return Err(done.error);
      }
      var dek := Buffer(newDek);
      return Ok(dek);
    }

    // ---- content ----

    /** Seals a field in the role (entity, id, field). */
    function SealField(dek: Bytes, nonce: Bytes, v: Bytes, entity: string, id: Id, field: string): Result<Blob> {
      Seal(Raw(dek), nonce, v, FieldAad(entity, id, field))
    }

    function OpenField(dek: Bytes, blob: Blob, entity: string, id: Id, field: string): Result<Bytes> {
      Open(Raw(dek), blob, FieldAad(entity, id, field))
    }

    method CreateProject(dek: Bytes, id: Id, name: Bytes, nonces: Cell -> Bytes) returns (r: Result<()>)
      modifies db
      ensures (db.State(), r) == Write(old(db.State()), dek, NewProject(id, name), nonces)
    {
      var enc := SealField(dek, nonces(Cell(Projects, NameEnc, id)), name, "project", id, "name");
      if enc.Err? {
        return Err(enc.error);
      }
      r := db.CreateProject(id, enc.value);
    }

    method CreateEnvironment(dek: Bytes, id: Id, project: Id, name: Bytes, nonces: Cell -> Bytes)
      returns (r: Result<()>)
      modifies db
      ensures (db.State(), r) == Write(old(db.State()), dek, NewEnvironment(id, project, name), nonces)
    {
      var enc := SealField(dek, nonces(Cell(Environments, NameEnc, id)), name, "environment", id, "name");
      if enc.Err? {
        return Err(enc.error);
      }
      r := db.CreateEnvironment(id, project, enc.value);
    }

    method CreateFolder(dek: Bytes, id: Id, environment: Id, name: Bytes, nonces: Cell -> Bytes) returns (r: Result<()>)
      modifies db
      ensures (db.State(), r) == Write(old(db.State()), dek, NewFolder(id, environment, name), nonces)
    {
      var enc := SealField(dek, nonces(Cell(Folders, NameEnc, id)), name, "folder", id, "name");
      if enc.Err? {
        return Err(enc.error);
      }
      r := db.CreateFolder(id, environment, enc.value);
    }

    method RenameProject(dek: Bytes, id: Id, name: Bytes, nonces: Cell -> Bytes) returns (r: Result<()>)
      modifies db
      ensures (db.State(), r) == Write(old(db.State()), dek, Edit.RenameProject(id, name), nonces)
    {
      var enc := SealField(dek, nonces(Cell(Projects, NameEnc, id)), name, "project", id, "name");
      if enc.Err? {
        return Err(enc.error);
      }
      r := db.UpdateProject(id, enc.value);
    }

    method RenameEnvironment(dek: Bytes, id: Id, name: Bytes, nonces: Cell -> Bytes) returns (r: Result<()>)
      modifies db
      ensures (db.State(), r) == Write(old(db.State()), dek, Edit.RenameEnvironment(id, name), nonces)
    {
      var enc := SealField(dek, nonces(Cell(Environments, NameEnc, id)), name, "environment", id, "name");
      if enc.Err? {
        return Err(enc.error);
      }
      r := db.UpdateEnvironment(id, enc.value);
    }

    method RenameFolder(dek: Bytes, id: Id, name: Bytes, nonces: Cell -> Bytes) returns (r: Result<()>)
      modifies db
      ensures (db.State(), r) == Write(old(db.State()), dek, Edit.RenameFolder(id, name), nonces)
    {
      var enc := SealField(dek, nonces(Cell(Folders, NameEnc, id)), name, "folder", id, "name");
      if enc.Err? {
        return Err(enc.error);
      }
      r := db.UpdateFolder(id, enc.value);
    }

    method SealSecret(dek: Bytes, id: Id, name: Bytes, value: Bytes, notes: Bytes, nonces: Cell -> Bytes)
      returns (r: Result<(Blob, Blob, Blob)>)
      ensures r == if !UsableKey(Raw(dek)) then Err(BadKey) else
        var seal := Sealer(dek, nonces);
        Ok((seal(Cell(Secrets, NameEnc, id), name), seal(Cell(Secrets, ValueEnc, id), value),
          seal(Cell(Secrets, NotesEnc, id), notes)))
    {
      var n := SealField(dek, nonces(Cell(Secrets, NameEnc, id)), name, "secret", id, "name");
      if n.Err? {
        return Err(n.error);
      }
      var v := SealField(dek, nonces(Cell(Secrets, ValueEnc, id)), value, "secret", id, "value").value;
      var o := SealField(dek, nonces(Cell(Secrets, NotesEnc, id)), notes, "secret", id, "notes").value;
      return Ok((n.value, v, o));
    }

    /** In a folder. */
    method CreateSecret(dek: Bytes, id: Id, folder: string, name: Bytes, value: Bytes, notes: Bytes,
        nonces: Cell -> Bytes)
      returns (r: Result<()>)
      modifies db
      ensures (db.State(), r) == Write(old(db.State()), dek, NewSecret(id, folder, "", name, value, notes), nonces)
    {
      var rec := SealSecret(dek, id, name, value, notes, nonces);
      if rec.Err? {
        return Err(rec.error);
      }
      r := db.CreateSecret(id, folder, "", rec.value.0, rec.value.1, rec.value.2);
    }

    /** Directly under an environment. */
    method CreateEnvSecret(dek: Bytes, id: Id, environment: string, name: Bytes, value: Bytes, notes: Bytes,
        nonces: Cell -> Bytes)
      returns (r: Result<()>)
      modifies db
      ensures (db.State(), r) == Write(old(db.State()), dek, NewSecret(id, "", environment, name, value, notes), nonces)
    {
      var rec := SealSecret(dek, id, name, value, notes, nonces);
      if rec.Err? {
        return Err(rec.error);
      }
      r := db.CreateSecret(id, "", environment, rec.value.0, rec.value.1, rec.value.2);
    }

    method UpdateSecret(dek: Bytes, id: Id, name: Bytes, value: Bytes, notes: Bytes, nonces: Cell -> Bytes)
      returns (r: Result<()>)
      modifies db
      ensures (db.State(), r) == Write(old(db.State()), dek, ChangeSecret(id, name, value, notes), nonces)
    {
      var rec := SealSecret(dek, id, name, value, notes, nonces);
      if rec.Err? {
        return Err(rec.error);
      }
      r := db.UpdateSecret(id, rec.value.0, rec.value.1, rec.value.2);
    }

    method AddAttachment(dek: Bytes, id: Id, secret: Id, name: Bytes, data: Bytes, nonces: Cell -> Bytes)
      returns (r: Result<()>)
      modifies db
      ensures (db.State(), r) == Write(old(db.State()), dek, NewAttachment(id, secret, name, data, |data|), nonces)
    {
      var n := SealField(dek, nonces(Cell(Attachments, NameEnc, id)), name, "attachment", id, "name");
      if n.Err? {
        return Err(n.error);
      }
      var d := SealField(dek, nonces(Cell(Attachments, DataEnc, id)), data, "attachment", id, "data").value;
      r := db.CreateAttachment(id, secret, n.value, d, |data|);
    }

    method DeleteProject(id: Id) returns (r: Result<()>)
      requires Intact(db.Rows())
      modifies db
      ensures forall dek, nonces :: (db.State(), r) == Write(old(db.State()), dek, Edit.DeleteProject(id), nonces)
    {
      r := db.DeleteProject(id);
    }

    method DeleteEnvironment(id: Id) returns (r: Result<()>)
      requires Intact(db.Rows())
      modifies db
      ensures forall dek, nonces :: (db.State(), r) == Write(old(db.State()), dek, Edit.DeleteEnvironment(id), nonces)
    {
      r := db.DeleteEnvironment(id);
    }

    method DeleteFolder(id: Id) returns (r: Result<()>)
      requires Intact(db.Rows())
      modifies db
      ensures forall dek, nonces :: (db.State(), r) == Write(old(db.State()), dek, Edit.DeleteFolder(id), nonces)
    {
      r := db.DeleteFolder(id);
    }

    method DeleteSecret(id: Id) returns (r: Result<()>)
      requires Intact(db.Rows())
      modifies db
      ensures forall dek, nonces :: (db.State(), r) == Write(old(db.State()), dek, Edit.DeleteSecret(id), nonces)
    {
      r := db.DeleteSecret(id);
    }

    method DeleteAttachment(id: Id) returns (r: Result<()>)
      requires Intact(db.Rows())
      modifies db
      ensures forall dek, nonces :: (db.State(), r) == Write(old(db.State()), dek, Edit.DeleteAttachment(id), nonces)
    {
      r := db.DeleteAttachment(id);
    }

    // ---- reads ----

    method SecretValue(dek: Bytes, id: Id) returns (r: Result<Bytes>)
      ensures r == Read(db.State(), dek, Cell(Secrets, ValueEnc, id))
    {
      if id !in db.secrets {
        return Err(NotFound);
      }
      return OpenField(dek, db.secrets[id].value, "secret", id, "value");
    }

    method GetSecretFull(dek: Bytes, id: Id) returns (r: Result<SecretFull>)
      ensures var name := Read(db.State(), dek, Cell(Secrets, NameEnc, id));
        var value := Read(db.State(), dek, Cell(Secrets, ValueEnc, id));
        var notes := Read(db.State(), dek, Cell(Secrets, NotesEnc, id));
        match r
        case Ok(s) =>
          && id in db.secrets && s.id == id
          && s.folder == (match db.secrets[id].folder case Some(f) => f case None => "")
          && name == Ok(s.name) && value == Ok(s.value) && notes == Ok(s.notes)
        case Err(e) =>
          && (name.Err? || value.Err? || notes.Err?)
          && e == if name.Err? then name.error else if value.Err? then value.error else notes.error
    {
      if id !in db.secrets {
        return Err(NotFound);
      }
      var row := db.secrets[id];
      var name := OpenField(dek, row.name, "secret", id, "name");
      if name.Err? {
        return Err(name.error);
      }
      var value := OpenField(dek, row.value, "secret", id, "value");
      if value.Err? {
        return Err(value.error);
      }
      var notes := OpenField(dek, row.notes, "secret", id, "notes");
      if notes.Err? {
        return Err(notes.error);
      }
      var folder := if row.folder.Some? then row.folder.value else "";
      return Ok(SecretFull(id, folder, name.value, value.value, notes.value));
    }

    method GetAttachmentData(dek: Bytes, id: Id) returns (r: Result<AttachmentData>)
      ensures var name := Read(db.State(), dek, Cell(Attachments, NameEnc, id));
        var data := Read(db.State(), dek, Cell(Attachments, DataEnc, id));
        match r
        case Ok(a) => name == Ok(a.name) && data == Ok(a.data)
        case Err(e) => (name.Err? || data.Err?) && e == if name.Err? then name.error else data.error
    {
      if id !in db.attachments {
        return Err(NotFound);
      }
      var name := OpenField(dek, db.attachments[id].name, "attachment", id, "name");
      if name.Err? {
        return Err(name.error);
      }
      var data := OpenField(dek, db.attachments[id].data, "attachment", id, "data");
      if data.Err? {
        return Err(data.error);
      }
      return Ok(AttachmentData(name.value, data.value));
    }

    /** Names and note flags of the given secrets; values are never opened. */
    method ListSecrets(dek: Bytes, ids: set<Id>) returns (r: Result<seq<SecretMeta>>)
      requires ids <= db.secrets.Keys
      ensures r.Ok? ==> SecretsShown(db.State(), dek, r.value, ids)
      ensures r.Err? ==> exists id :: id in ids && NameFails(db.State(), dek, Cell(Secrets, NameEnc, id), r.error)
    {
      var order := Enumerate(ids);
      var out: seq<SecretMeta> := [];
      for i := 0 to |order|
        invariant |out| == i
        invariant forall k | 0 <= k < i :: out[k].id == order[k] && SecretShown(db.State(), dek, out[k])
      {
        assert order[i] in ids;
        var row := db.secrets[order[i]];
        var name := OpenField(dek, row.name, "secret", order[i], "name");
        if name.Err? {
          assert NameFails(db.State(), dek, Cell(Secrets, NameEnc, order[i]), name.error);
          return Err(name.error);
        }
        out := out + [SecretMeta(order[i], name.value, Size(row.notes) > EMPTY_CIPHER_LEN)];
      }
      assert MetaIds(out) == order;
      return Ok(out);
    }

    method ListFolders(dek: Bytes, environment: Id) returns (r: Result<seq<TreeFolder>>)
      ensures r.Ok? ==> FoldersShown(db.State(), dek, r.value, ChildFolders(db.Rows(), environment))
      ensures r.Err? ==> exists c :: c in FolderCells(db.Rows(), environment) && NameFails(db.State(), dek, c, r.error)
    {
      var order := Enumerate(ChildFolders(db.Rows(), environment));
      var out: seq<TreeFolder> := [];
      for i := 0 to |order|
        invariant |out| == i
        invariant forall k | 0 <= k < i :: out[k].id == order[k] && FolderShown(db.State(), dek, out[k])
      {
        assert order[i] in ChildFolders(db.Rows(), environment);
        var name := OpenField(dek, db.folders[order[i]].name, "folder", order[i], "name");
        if name.Err? {
          assert NameFails(db.State(), dek, Cell(Folders, NameEnc, order[i]), name.error);
          return Err(name.error);
        }
        var inside := ListSecrets(dek, FolderSecrets(db.Rows(), order[i]));
        if inside.Err? {
          ghost var s :| s in FolderSecrets(db.Rows(), order[i])
            && NameFails(db.State(), dek, Cell(Secrets, NameEnc, s), inside.error);
          assert Cell(Secrets, NameEnc, s) in FolderCells(db.Rows(), environment);
          return Err(inside.error);
        }
        out := out + [TreeFolder(order[i], name.value, inside.value)];
      }
      assert FolderIds(out) == order;
      return Ok(out);
    }

    /** The environments of a project, each with its folders and loose secrets. */
    method Tree(dek: Bytes, project: Id) returns (r: Result<seq<TreeEnv>>)
      ensures r.Ok? ==> TreeShown(db.State(), dek, r.value, ChildEnvironments(db.Rows(), project))
      ensures r.Err? ==> exists c :: c in TreeCells(db.Rows(), project) && NameFails(db.State(), dek, c, r.error)
    {
      var order := Enumerate(ChildEnvironments(db.Rows(), project));
      var out: seq<TreeEnv> := [];
      for i := 0 to |order|
        invariant |out| == i
        invariant forall k | 0 <= k < i :: out[k].id == order[k] && EnvShown(db.State(), dek, out[k])
      {
        assert order[i] in ChildEnvironments(db.Rows(), project);
        var name := OpenField(dek, db.environments[order[i]].name, "environment", order[i], "name");
        if name.Err? {
          assert NameFails(db.State(), dek, Cell(Environments, NameEnc, order[i]), name.error);
          return Err(name.error);
        }
        var folders := ListFolders(dek, order[i]);
        if folders.Err? {
          ghost var c :| c in FolderCells(db.Rows(), order[i]) && NameFails(db.State(), dek, c, folders.error);
          assert c in TreeCells(db.Rows(), project);
          return Err(folders.error);
        }
        var loose := ListSecrets(dek, LooseSecrets(db.Rows(), order[i]));
        if loose.Err? {
          ghost var s :| s in LooseSecrets(db.Rows(), order[i])
            && NameFails(db.State(), dek, Cell(Secrets, NameEnc, s), loose.error);
          assert Cell(Secrets, NameEnc, s) in TreeCells(db.Rows(), project);
          return Err(loose.error);
        }
        out := out + [TreeEnv(order[i], name.value, folders.value, loose.value)];
      }
      assert EnvIds(out) == order;
      return Ok(out);
    }

    // ---- second factor ----

    method TotpEnabled() returns (r: Result<bool>)
      ensures r == VaultSpec.TotpEnabled(db.State())
    {
      if db.vault.None? {
        return Err(NotFound);
      }
      return Ok(db.totp.Some? && Size(db.totp.value) > 0);
    }

    method ConfirmTotp(codes: CodeFn, dek: Bytes, secret: Bytes, code: string, now: Clock, nonce: Bytes)
      returns (r: Result<bool>)
      modifies db
      ensures (db.State(), r) == VaultSpec.ConfirmTotp(old(db.State()), codes, dek, secret, code, now, nonce)
    {
      match Validate(codes, secret, code, now, -1)
      case Broken => return Err(BadSecret);
      case Refused => return Ok(false);
      case Accepted(step) =>
        var enc := SealField(dek, nonce, secret, "vault", "1", "totp");
        if enc.Err? {
          return Err(enc.error);
        }
        db.SetTotp(enc.value, step);
        return Ok(true);
    }

    method VerifyLoginTotp(codes: CodeFn, dek: Bytes, code: string, now: Clock) returns (r: Result<bool>)
      modifies db
      ensures (db.State(), r) == VaultSpec.VerifyLoginTotp(old(db.State()), codes, dek, code, now)
    {
      if db.vault.None? {
        return Err(NotFound);
      }
      if db.totp.None? {
        return Err(if UsableKey(Raw(dek)) then Decrypt else BadKey);
      }
      var secret := OpenField(dek, db.totp.value, "vault", "1", "totp");
      if secret.Err? {
        return Err(secret.error);
      }
      match Validate(codes, secret.value, code, now, db.vault.value.totpLast)
      case Broken => return Err(BadSecret);
      case Refused => return Ok(false);
      case Accepted(step) =>
        db.UpdateTotpLast(step);
        return Ok(true);
    }

    method DisableTotp()
      modifies db
      ensures db.State() == VaultSpec.DisableTotp(old(db.State()))
    {
      db.ClearTotp();
    }
  }

  // ---- the tree and the join ----

  ghost function TreePaths(project: Id, es: seq<TreeEnv>): set<Path> {
    (set i, j, k | 0 <= i < |es| && 0 <= j < |es[i].folders| && 0 <= k < |es[i].folders[j].secrets|
      :: Path(es[i].folders[j].secrets[k].id, Some(es[i].folders[j].id), es[i].id, project))
    + (set i, k | 0 <= i < |es| && 0 <= k < |es[i].secrets| :: Path(es[i].secrets[k].id, None, es[i].id, project))
  }

  /** A project's tree shows exactly the join's rows of that project. */
  lemma TreeShowsTheJoin(st: State, dek: Bytes, project: Id, es: seq<TreeEnv>)
    requires Intact(st.rows) && project in st.rows.projects
    requires TreeShown(st, dek, es, ChildEnvironments(st.rows, project))
    ensures TreePaths(project, es) == set q | q in JoinedPaths(st.rows) && q.project == project
  {
    JoinAgreesWithBrowse(st.rows);
    forall q | q in TreePaths(project, es) ensures q in BrowsedPaths(st.rows) {
      InTreeIsBrowsed(st, dek, project, es, q);
    }
    forall q | q in BrowsedPaths(st.rows) && q.project == project ensures q in TreePaths(project, es) {
      BrowsedIsInTree(st, dek, project, es, q);
    }
  }

  lemma InTreeIsBrowsed(st: State, dek: Bytes, project: Id, es: seq<TreeEnv>, q: Path)
    requires project in st.rows.projects && q in TreePaths(project, es)
    requires TreeShown(st, dek, es, ChildEnvironments(st.rows, project))
    ensures q in BrowsedPaths(st.rows)
  {
    hide SecretsShown, FoldersShown, BrowsedPaths;
    var envs := EnvIds(es);
    if i, k :| 0 <= i < |es| && 0 <= k < |es[i].secrets| && q == Path(es[i].secrets[k].id, None, es[i].id, project) {
      assert envs[i] in envs && EnvShown(st, dek, es[i]);
      LooseIsBrowsed(st, dek, project, es[i], k);
    } else {
      var i, j, k :| 0 <= i < |es| && 0 <= j < |es[i].folders| && 0 <= k < |es[i].folders[j].secrets|
        && q == Path(es[i].folders[j].secrets[k].id, Some(es[i].folders[j].id), es[i].id, project);
      assert envs[i] in envs && EnvShown(st, dek, es[i]);
      FiledIsBrowsed(st, dek, project, es[i], j, k);
    }
  }

  lemma LooseIsBrowsed(st: State, dek: Bytes, project: Id, e: TreeEnv, k: nat)
    requires project in st.rows.projects && e.id in ChildEnvironments(st.rows, project)
    requires EnvShown(st, dek, e) && k < |e.secrets|
    ensures Path(e.secrets[k].id, None, e.id, project) in BrowsedPaths(st.rows)
  {
    hide FoldersShown, SecretShown, Read;
    var loose := MetaIds(e.secrets);
    assert loose[k] in loose;
  }

  lemma FiledIsBrowsed(st: State, dek: Bytes, project: Id, e: TreeEnv, j: nat, k: nat)
    requires project in st.rows.projects && e.id in ChildEnvironments(st.rows, project)
    requires EnvShown(st, dek, e) && j < |e.folders| && k < |e.folders[j].secrets|
    ensures Path(e.folders[j].secrets[k].id, Some(e.folders[j].id), e.id, project) in BrowsedPaths(st.rows)
  {
    hide SecretShown, Read;
    var folders := FolderIds(e.folders);
    assert folders[j] in folders && FolderShown(st, dek, e.folders[j]);
    var inside := MetaIds(e.folders[j].secrets);
    assert inside[k] in inside;
  }

  lemma BrowsedIsInTree(st: State, dek: Bytes, project: Id, es: seq<TreeEnv>, q: Path)
    requires q in BrowsedPaths(st.rows) && q.project == project
    requires TreeShown(st, dek, es, ChildEnvironments(st.rows, project))
    ensures q in TreePaths(project, es)
  {
    var envs := EnvIds(es);
    var i :| 0 <= i < |es| && envs[i] == q.environment;
    assert EnvShown(st, dek, es[i]);
    if q.folder.None? {
      var loose := MetaIds(es[i].secrets);
      var k :| 0 <= k < |loose| && loose[k] == q.secret;
      assert q == Path(es[i].secrets[k].id, None, es[i].id, project);
    } else {
      var fs := es[i].folders;
      var folders := FolderIds(fs);
      var j :| 0 <= j < |folders| && folders[j] == q.folder.value;
      assert FolderShown(st, dek, fs[j]);
      var inside := MetaIds(fs[j].secrets);
      var k :| 0 <= k < |inside| && inside[k] == q.secret;
      assert q == Path(fs[j].secrets[k].id, Some(fs[j].id), es[i].id, project);
    }
  }

  // ---- the tree and the plaintext ----

  /** The entry of a list is what the row reads as. */
  ghost predicate MetaReads(plain: Rows<Bytes>, m: SecretMeta) {
    m.id in plain.secrets && m.name == plain.secrets[m.id].name && (m.hasNotes <==> plain.secrets[m.id].notes != [])
  }

  ghost predicate FolderReads(plain: Rows<Bytes>, f: TreeFolder) {
    && f.id in plain.folders && f.name == plain.folders[f.id].name
    && forall k | 0 <= k < |f.secrets| :: MetaReads(plain, f.secrets[k])
  }

  ghost predicate EnvReads(plain: Rows<Bytes>, e: TreeEnv) {
    && e.id in plain.environments && e.name == plain.environments[e.id].name
    && (forall j | 0 <= j < |e.folders| :: FolderReads(plain, e.folders[j]))
    && (forall k | 0 <= k < |e.secrets| :: MetaReads(plain, e.secrets[k]))
  }

  /** Over a readable store every name in a tree is the plaintext one, and a secret is
      flagged exactly when its notes are not empty. */
  lemma TreeShowsThePlaintext(st: State, plain: Rows<Bytes>, dek: Bytes, es: seq<TreeEnv>, ids: set<Id>)
    requires Seals(st.rows, plain, dek) && TreeShown(st, dek, es, ids)
    ensures forall i | 0 <= i < |es| :: EnvReads(plain, es[i])
  {
    hide SecretShown, Seals, Read;
    forall i, f | 0 <= i < |es| && f in es[i].folders ensures FolderReads(plain, f) {
      var j :| 0 <= j < |es[i].folders| && es[i].folders[j] == f;
      assert EnvShown(st, dek, es[i]) && FolderShown(st, dek, f);
      NameReads(st, plain, dek, Folders, f.id, f.name);
      MetasRead(st, plain, dek, f.secrets);
    }
    forall i | 0 <= i < |es| ensures EnvReads(plain, es[i]) {
      assert EnvShown(st, dek, es[i]);
      NameReads(st, plain, dek, Environments, es[i].id, es[i].name);
      MetasRead(st, plain, dek, es[i].secrets);
    }
  }

  lemma NameReads(st: State, plain: Rows<Bytes>, dek: Bytes, t: Table, id: Id, name: Bytes)
    requires Seals(st.rows, plain, dek) && (t.Environments? || t.Folders?)
    requires Read(st, dek, Cell(t, NameEnc, id)) == Ok(name)
    ensures t.Environments? ==> id in plain.environments && name == plain.environments[id].name
    ensures t.Folders? ==> id in plain.folders && name == plain.folders[id].name
  {
    hide RoleAad;
  }

  lemma MetasRead(st: State, plain: Rows<Bytes>, dek: Bytes, ms: seq<SecretMeta>)
    requires Seals(st.rows, plain, dek) && forall k | 0 <= k < |ms| :: SecretShown(st, dek, ms[k])
    ensures forall k | 0 <= k < |ms| :: MetaReads(plain, ms[k])
  {
    hide RoleAad;
    forall k | 0 <= k < |ms| ensures MetaReads(plain, ms[k]) {
      assert Has(st.rows, Cell(Secrets, NameEnc, ms[k].id)) && Has(st.rows, Cell(Secrets, NotesEnc, ms[k].id));
    }
  }
}
