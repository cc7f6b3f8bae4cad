/** The database as an object: tables that statements change in place, cascading
    deletes, and the rekey transaction. The order in which a query returns rows is
    not fixed; every list is some enumeration of the matching rows. */
module Store {
  import opened Common
  import opened Aead
  import opened Tables
  import opened VaultSpec
  import opened Paths

  /** What a statement did: its effect on the rows, or its error and no effect. */
  ghost predicate Did(before: State, effect: Result<Rows<Blob>>, after: State, r: Result<()>) {
    match effect
    case Ok(rows) => r == Ok(()) && after == before.(rows := rows)
    case Err(e) => r == Err(e) && after == before
  }

  class DB {
    var vault: Option<VaultRow>
    var projects: map<Id, ProjectRow<Blob>>
    var environments: map<Id, EnvironmentRow<Blob>>
    var folders: map<Id, FolderRow<Blob>>
    var secrets: map<Id, SecretRow<Blob>>
    var attachments: map<Id, AttachmentRow<Blob>>
    var totp: Option<Blob>

    function Rows(): Rows<Blob>
      reads this
    {
      Tables.Rows(projects, environments, folders, secrets, attachments, totp)
    }

    function State(): State
      reads this
    {
      VaultSpec.State(vault, Rows())
    }

    constructor ()
      ensures State() == NEW_STATE
    {
      vault, totp := None, None;
      projects, environments, folders, secrets, attachments := map[], map[], map[], map[], map[];
    }

    // ---- the vault row ----

    method InitVault(row: VaultRow) returns (r: Result<()>)
      modifies this
      ensures if old(vault).Some? then r == Err(Constraint) && State() == old(State())
              else r == Ok(()) && State() == VaultSpec.State(Some(row.(totpLast := 0)), old(Rows()).(totp := None))
    {
      if vault.Some? {
        return Err(Constraint);
      }
      vault, totp := Some(row.(totpLast := 0)), None;
      return Ok(());
    }

    /** Replaces the derivation parameters and the wrapped key. */
    method UpdateVaultWrap(row: VaultRow)
      modifies this
      ensures State() == old(State()).(
        vault := if old(vault).Some? then Some(Rewrapped(old(vault).value, row)) else None)
    {
      if vault.Some? {
        vault := Some(row.(totpLast := vault.value.totpLast));
      }
    }

    method SetTotp(enc: Blob, lastStep: int)
      modifies this
      ensures State() == if old(vault).None? then old(State())
        else VaultSpec.State(Some(old(vault).value.(totpLast := lastStep)), old(Rows()).(totp := Some(enc)))
    {
      if vault.Some? {
        vault, totp := Some(vault.value.(totpLast := lastStep)), Some(enc);
      }
    }

    method ClearTotp()
      modifies this
      ensures State() == DisableTotp(old(State()))
    {
      if vault.Some? {
        vault, totp := Some(vault.value.(totpLast := 0)), None;
      }
    }

    method UpdateTotpLast(step: int)
      modifies this
      ensures State() == if old(vault).None? then old(State())
        else old(State()).(vault := Some(old(vault).value.(totpLast := step)))
    {
      if vault.Some? {
        vault := Some(vault.value.(totpLast := step));
      }
    }

    // ---- inserts and updates ----

    method CreateProject(id: Id, nameEnc: Blob) returns (r: Result<()>)
      modifies this
      ensures Did(old(State()), InsertProject(old(Rows()), id, nameEnc), State(), r)
    {
      if id in projects {
        return Err(Constraint);
      }
      projects := projects[id := ProjectRow(nameEnc)];
      return Ok(());
    }

    method CreateEnvironment(id: Id, project: Id, nameEnc: Blob) returns (r: Result<()>)
      modifies this
      ensures Did(old(State()), InsertEnvironment(old(Rows()), id, project, nameEnc), State(), r)
    {
      if id in environments || project !in projects {
        return Err(Constraint);
      }
      environments := environments[id := EnvironmentRow(project, nameEnc)];
      return Ok(());
    }

    method CreateFolder(id: Id, environment: Id, nameEnc: Blob) returns (r: Result<()>)
      modifies this
      ensures Did(old(State()), InsertFolder(old(Rows()), id, environment, nameEnc), State(), r)
    {
      if id in folders || environment !in environments {
        return Err(Constraint);
      }
      folders := folders[id := FolderRow(environment, nameEnc)];
      return Ok(());
    }

    method CreateSecret(id: Id, folder: string, environment: string, nameEnc: Blob, valueEnc: Blob,
        notesEnc: Blob) returns (r: Result<()>)
      modifies this
      ensures Did(old(State()), InsertSecret(old(Rows()), id, folder, environment, nameEnc, valueEnc, notesEnc),
        State(), r)
    {
      var f, e := NullStr(folder), NullStr(environment);
      if id in secrets || f.Some? == e.Some? || (f.Some? && f.value !in folders)
        || (e.Some? && e.value !in environments) {
        return Err(Constraint);
      }
      secrets := secrets[id := SecretRow(f, e, nameEnc, valueEnc, notesEnc)];
      return Ok(());
    }

    method CreateAttachment(id: Id, secret: Id, nameEnc: Blob, dataEnc: Blob, size: int) returns (r: Result<()>)
      modifies this
      ensures Did(old(State()), InsertAttachment(old(Rows()), id, secret, nameEnc, dataEnc, size), State(), r)
    {
      if id in attachments || secret !in secrets {
        return Err(Constraint);
      }
      attachments := attachments[id := AttachmentRow(secret, nameEnc, dataEnc, size)];
      return Ok(());
    }

    method UpdateProject(id: Id, nameEnc: Blob) returns (r: Result<()>)
      modifies this
      ensures Did(old(State()), Rename(old(Rows()), Projects, id, nameEnc), State(), r)
    {
      if id !in projects {
        return Err(NotFound);
      }
      projects := projects[id := projects[id].(name := nameEnc)];
      return Ok(());
    }

    method UpdateEnvironment(id: Id, nameEnc: Blob) returns (r: Result<()>)
      modifies this
      ensures Did(old(State()), Rename(old(Rows()), Environments, id, nameEnc), State(), r)
    {
      if id !in environments {
        return Err(NotFound);
      }
      environments := environments[id := environments[id].(name := nameEnc)];
      return Ok(());
    }

    method UpdateFolder(id: Id, nameEnc: Blob) returns (r: Result<()>)
      modifies this
      ensures Did(old(State()), Rename(old(Rows()), Folders, id, nameEnc), State(), r)
    {
      if id !in folders {
        return Err(NotFound);
      }
      folders := folders[id := folders[id].(name := nameEnc)];
      return Ok(());
    }

    method UpdateSecret(id: Id, nameEnc: Blob, valueEnc: Blob, notesEnc: Blob) returns (r: Result<()>)
      modifies this
      ensures Did(old(State()), Tables.UpdateSecret(old(Rows()), id, nameEnc, valueEnc, notesEnc), State(), r)
    {
      if id !in secrets {
        return Err(NotFound);
      }
      secrets := secrets[id := secrets[id].(name := nameEnc, value := valueEnc, notes := notesEnc)];
      return Ok(());
    }

    // ---- deletes: each table's rows, then the rows that referenced them ----

    method DropSecrets(ids: set<Id>)
      modifies `secrets, `attachments
      ensures secrets == old(secrets) - ids
      ensures attachments == map a | a in old(attachments) && old(attachments)[a].secret !in ids :: old(attachments)[a]
    {
      var orphans := set a | a in attachments && attachments[a].secret in ids;
      secrets := secrets - ids;
      attachments := attachments - orphans;
    }

    method DropFolders(ids: set<Id>)
      modifies `folders, `secrets, `attachments
      ensures folders == old(folders) - ids
      ensures var gone := set s | s in old(secrets) && old(secrets)[s].folder.Some?
        && old(secrets)[s].folder.value in ids;
        && secrets == old(secrets) - gone
        && attachments == map a | a in old(attachments) && old(attachments)[a].secret !in gone :: old(attachments)[a]
    {
      var gone := set s | s in secrets && secrets[s].folder.Some? && secrets[s].folder.value in ids;
      folders := folders - ids;
      DropSecrets(gone);
    }

    method DropEnvironments(ids: set<Id>)
      modifies `environments, `folders, `secrets, `attachments
      ensures environments == old(environments) - ids
      ensures folders == map f | f in old(folders) && old(folders)[f].environment !in ids :: old(folders)[f]
      ensures var gone := SecretsBelow(old(folders), old(secrets), ids);
        && secrets == old(secrets) - gone
        && attachments == map a | a in old(attachments) && old(attachments)[a].secret !in gone :: old(attachments)[a]
    {
      environments := environments - ids;
      var inside := set f | f in folders && folders[f].environment in ids;
      var loose := set s | s in secrets && secrets[s].environment.Some? && secrets[s].environment.value in ids;
      DropFolders(inside);
      DropSecrets(loose);
    }

    method DeleteProject(id: Id) returns (r: Result<()>)
      requires Intact(Rows())
      modifies this
      ensures Did(old(State()), Delete(old(Rows()), Projects, id), State(), r)
    {
      if id !in projects {
        return Err(NotFound);
      }
      var under := set e | e in environments && environments[e].project == id;
      projects := projects - {id};
      DropEnvironments(under);
      CascadeIsWithout(old(Rows()), Projects, id, under);
      return Ok(());
    }

    method DeleteEnvironment(id: Id) returns (r: Result<()>)
      requires Intact(Rows())
      modifies this
      ensures Did(old(State()), Delete(old(Rows()), Environments, id), State(), r)
    {
      if id !in environments {
        return Err(NotFound);
      }
      DropEnvironments({id});
      CascadeIsWithout(old(Rows()), Environments, id, {id});
      return Ok(());
    }

    method DeleteFolder(id: Id) returns (r: Result<()>)
      requires Intact(Rows())
      modifies this
      ensures Did(old(State()), Delete(old(Rows()), Folders, id), State(), r)
    {
      if id !in folders {
        return Err(NotFound);
      }
      DropFolders({id});
      ghost var want := Without(old(Rows()), Folders, id);
      assert projects == want.projects && environments == want.environments && folders == want.folders;
      assert secrets == want.secrets && attachments == want.attachments;
      return Ok(());
    }

    method DeleteSecret(id: Id) returns (r: Result<()>)
      requires Intact(Rows())
      modifies this
      ensures Did(old(State()), Delete(old(Rows()), Secrets, id), State(), r)
    {
      if id !in secrets {
        return Err(NotFound);
      }
      DropSecrets({id});
      ghost var want := Without(old(Rows()), Secrets, id);
      assert projects == want.projects && environments == want.environments && folders == want.folders;
      assert secrets == want.secrets && attachments == want.attachments;
      return Ok(());
    }

    method DeleteAttachment(id: Id) returns (r: Result<()>)
      requires Intact(Rows())
      modifies this
      ensures Did(old(State()), Delete(old(Rows()), Attachments, id), State(), r)
    {
      if id !in attachments {
        return Err(NotFound);
      }
      attachments := attachments - {id};
      ghost var want := Without(old(Rows()), Attachments, id);
      assert projects == want.projects && environments == want.environments && folders == want.folders;
      assert secrets == want.secrets && attachments == want.attachments;
      return Ok(());
    }

    // ---- queries across tables ----

    /** Every secret joined to its ancestors: left to its folder, inner to its
        environment and project. */
    method AllSecretsWithPath() returns (out: seq<SecretWithPath>)
      ensures forall k | 0 <= k < |out| :: Describes(Rows(), out[k])
      ensures forall i, j | 0 <= i < j < |out| :: out[i].id != out[j].id
      ensures forall s | s in secrets && Joined(Rows(), s).Some? :: exists k :: 0 <= k < |out| && out[k].id == s
    {
      var ids := Enumerate(secrets.Keys);
      out := [];
      for i := 0 to |ids|
        invariant forall k | 0 <= k < |out| :: Describes(Rows(), out[k]) && out[k].id in ids[..i]
        invariant forall a, b | 0 <= a < b < |out| :: out[a].id != out[b].id
        invariant forall s | s in ids[..i] && Joined(Rows(), s).Some? :: exists k :: 0 <= k < |out| && out[k].id == s
      {
        assert ids[i] in secrets && ids[i] !in ids[..i];
        assert ids[..i + 1] == ids[..i] + [ids[i]];
        var s := secrets[ids[i]];
        var f := if s.folder.Some? && s.folder.value in folders then Some(folders[s.folder.value]) else None;
        var e := if f.Some? then Some(f.value.environment) else s.environment;
        ghost var before := out;
        if e.Some? && e.value in environments && environments[e.value].project in projects {
          var p := environments[e.value].project;
          var row := SecretWithPath(ids[i], s.name, s.notes, p, projects[p].name, e.value, environments[e.value].name,
                                    s.folder, if f.Some? then Some(f.value.name) else None);
          out := out + [row];
          assert out[|before|].id == ids[i];
        }
        assert forall k | 0 <= k < |before| :: out[k] == before[k];
      }
      assert ids[..|ids|] == ids;
    }

    method GetProjectCounts(id: Id) returns (envs: nat, secs: nat)
      ensures (envs, secs) == ProjectCounts(Rows(), id)
    {
      var es := set e | e in environments && environments[e].project == id;
      var ss := set s | s in secrets && SecretProject(Rows(), secrets[s]) == Some(id);
      assert es == ChildEnvironments(Rows(), id) && ss == ProjectSecrets(Rows(), id);
      envs, secs := |es|, |ss|;
    }

    // ---- the rekey transaction ----

    /** `SELECT id, <column> FROM <table>` */
    method Select(t: Table, col: Column) returns (recs: seq<Rec>)
      requires IsColumn(t, col) && !t.Vault?
      ensures Genuine(recs, Rows())
      ensures ColumnCells(Rows(), t, col) <= CellsOf(recs)
      ensures NoRepeat(recs) && forall c | c in CellsOf(recs) :: c.table == t && c.column == col
    {
      var ids := Enumerate(Ids(Rows(), t));
      recs := [];
      for i := 0 to |ids|
        invariant |recs| == i
        invariant forall k | 0 <= k < i :: recs[k].cell == Cell(t, col, ids[k])
        invariant Genuine(recs, Rows())
      {
        assert ids[i] in Ids(Rows(), t);
        var c := Cell(t, col, ids[i]);
        recs := recs + [Rec(c, Get(Rows(), c))];
      }
      forall c | c in ColumnCells(Rows(), t, col) ensures c in CellsOf(recs) {
        var k :| 0 <= k < |ids| && ids[k] == c.id;
        assert recs[k].cell == c;
      }
    }

    /** `UPDATE <table> SET <column>=? WHERE id=?` */
    method Update(c: Cell, blob: Blob)
      requires Has(Rows(), c)
      modifies this
      ensures State() == old(State()).(rows := Put(old(Rows()), c, blob))
    {
      match c.table
      case Projects => projects := projects[c.id := ProjectRow(blob)];
      case Environments => environments := environments[c.id := environments[c.id].(name := blob)];
      case Folders => folders := folders[c.id := folders[c.id].(name := blob)];
      case Secrets =>
        var s := secrets[c.id];
        if c.column.NameEnc? {
          secrets := secrets[c.id := s.(name := blob)];
        } else if c.column.ValueEnc? {
          secrets := secrets[c.id := s.(value := blob)];
        } else {
          secrets := secrets[c.id := s.(notes := blob)];
        }
      case Attachments =>
        var a := attachments[c.id];
        if c.column.NameEnc? {
          attachments := attachments[c.id := a.(name := blob)];
        } else {
          attachments := attachments[c.id := a.(data := blob)];
        }
      case Vault => totp := Some(blob);
    }

    method Rollback(saved: State)
      modifies this
      ensures State() == saved
    {
      vault, totp := saved.vault, saved.rows.totp;
      projects, environments, folders := saved.rows.projects, saved.rows.environments, saved.rows.folders;
      secrets, attachments := saved.rows.secrets, saved.rows.attachments;
    }

    /** Reads every ciphertext, each once, before anything is written. */
    method Collect() returns (recs: seq<Rec>)
      ensures Genuine(recs, Rows())
      ensures forall c | Ciphertext(Rows(), c) :: c in CellsOf(recs)
      ensures NoRepeat(recs)
    {
      recs := [];
      ghost var rows, done: set<(Table, Column)> := Rows(), {};
      assert Collected(rows, recs, done, 0, 0);
      for i := 0 to |ENCRYPTED_COLUMNS|
        invariant Collected(rows, recs, done, i, 0)
      {
        var (t, cols) := ENCRYPTED_COLUMNS[i];
        for j := 0 to |cols|
          invariant Collected(rows, recs, done, i, j)
        {
          hide Collected, Genuine, NoRepeat;
          var got := Select(t, cols[j]);
          OneMoreColumn(rows, recs, done, got, i, j);
          recs := recs + got;
          done := done + {(t, cols[j])};
        }
        TableDone(rows, recs, done, i);
      }
      ghost var listed := recs;
      AllCollected(rows, listed, done);
      hide Collected;
      if totp.Some? && Size(totp.value) > 0 {
        CellsOfAppend(recs, [Rec(TOTP_CELL, totp.value)]);
        NoRepeatAppend(recs, [Rec(TOTP_CELL, totp.value)]);
        recs := recs + [Rec(TOTP_CELL, totp.value)];
      }
      forall c | Ciphertext(Rows(), c) ensures c in CellsOf(recs) {
        if c.table.Vault? {
          assert recs[|recs| - 1].cell == c;
        }
      }
    }

    /** Re-encrypts every field and writes the new wrap, or does nothing at all. */
    method RekeyTx(transform: (Cell, Blob) -> Result<Blob>, row: VaultRow) returns (r: Result<()>)
      modifies this
      ensures r.Ok? <==> old(vault).Some? && AllTransform(old(Rows()), transform)
      ensures r.Ok? ==>
        State() == VaultSpec.State(Some(Rewrapped(old(vault).value, row)), Recode(old(Rows()), Transformed(transform)))
      ensures r.Err? ==> State() == old(State())
      ensures r.Err? && old(vault).Some? ==>
        exists c :: Ciphertext(old(Rows()), c) && transform(c, Get(old(Rows()), c)) == Err(r.error)
    {
      var saved := State();
      ghost var before := Rows();
      var recs := Collect();
      if vault.None? {
        return Err(NotFound);
      }
      NothingWritten(before, transform);
      for k := 0 to |recs|
        invariant vault == old(vault)
        invariant forall i | 0 <= i < k :: transform(recs[i].cell, recs[i].blob).Ok?
        invariant HalfWritten(before, Rows(), recs[..k], transform)
      {
        var made := transform(recs[k].cell, recs[k].blob);
        if made.Err? {
          Rollback(saved);
          assert Ciphertext(before, recs[k].cell);
          return Err(made.error);
        }
        WriteStep(before, Rows(), recs[..k], recs[k], made.value, transform);
        assert recs[..k + 1] == recs[..k] + [recs[k]];
        Update(recs[k].cell, made.value);
      }
      UpdateVaultWrap(row);
      assert recs[..|recs|] == recs;
      AllWritten(before, Rows(), recs, transform);
      return Ok(());
    }
  }

  /** The secrets that hang under the given environments, through a folder or directly. */
  ghost function SecretsBelow(folders: map<Id, FolderRow<Blob>>, secrets: map<Id, SecretRow<Blob>>, ids: set<Id>)
    : set<Id>
  {
    set s | s in secrets && (
      || (secrets[s].environment.Some? && secrets[s].environment.value in ids)
      || (secrets[s].folder.Some? && secrets[s].folder.value in folders
           && folders[secrets[s].folder.value].environment in ids))
  }

  /** Cascading from the environments under a row removes what hangs under the row. */
  lemma CascadeIsWithout(r: Rows<Blob>, t: Table, id: Id, under: set<Id>)
    requires Intact(r) && (t.Projects? || t.Environments?)
    requires forall e :: e in under <==> e in r.environments && EnvironmentUnder(r, t, id, e)
    ensures var gone := SecretsBelow(r.folders, r.secrets, under);
      Without(r, t, id) == Rows(
        r.projects - (if t.Projects? then {id} else {}),
        r.environments - under,
        map f | f in r.folders && r.folders[f].environment !in under :: r.folders[f],
        r.secrets - gone,
        map a | a in r.attachments && r.attachments[a].secret !in gone :: r.attachments[a],
        r.totp)
  {
    ParentsWithout(r, t, id, under);
    LeavesWithout(r, t, id, under);
    hide EnvironmentsWithout, FoldersWithout, SecretsWithout, AttachmentsWithout, SecretsBelow, Intact;
  }

  lemma ParentsWithout(r: Rows<Blob>, t: Table, id: Id, under: set<Id>)
    requires Intact(r) && (t.Projects? || t.Environments?)
    requires forall e :: e in under <==> e in r.environments && EnvironmentUnder(r, t, id, e)
    ensures EnvironmentsWithout(r, t, id) == r.environments - under
    ensures FoldersWithout(r, t, id) == map f | f in r.folders && r.folders[f].environment !in under :: r.folders[f]
  {
    BelowIsUnder(r, t, id, under);
    hide EnvironmentUnder, FolderUnder, Intact;
  }

  lemma LeavesWithout(r: Rows<Blob>, t: Table, id: Id, under: set<Id>)
    requires Intact(r) && (t.Projects? || t.Environments?)
    requires forall e :: e in under <==> e in r.environments && EnvironmentUnder(r, t, id, e)
    ensures var gone := SecretsBelow(r.folders, r.secrets, under);
      && SecretsWithout(r, t, id) == r.secrets - gone
      && AttachmentsWithout(r, t, id) == map a | a in r.attachments && r.attachments[a].secret !in gone ::
           r.attachments[a]
  {
    BelowIsUnder(r, t, id, under);
    hide EnvironmentUnder, FolderUnder, SecretUnder, AttachmentUnder, SecretsBelow, Intact;
  }

  lemma BelowIsUnder(r: Rows<Blob>, t: Table, id: Id, under: set<Id>)
    requires Intact(r) && (t.Projects? || t.Environments?)
    requires forall e :: e in under <==> e in r.environments && EnvironmentUnder(r, t, id, e)
    ensures var gone := SecretsBelow(r.folders, r.secrets, under);
      && (forall f | f in r.folders :: r.folders[f].environment in under <==> FolderUnder(r, t, id, f))
      && (forall s | s in r.secrets :: s in gone <==> SecretUnder(r, t, id, s))
      && (forall a | a in r.attachments :: r.attachments[a].secret in gone <==> AttachmentUnder(r, t, id, a))
  {
  }

  datatype SecretWithPath = SecretWithPath(
    id: Id, nameEnc: Blob, notesEnc: Blob, project: Id, projectName: Blob,
    environment: Id, environmentName: Blob, folder: Option<Id>, folderName: Option<Blob>)

  /** A row of the join: the path of its secret, with the cells that stand there. */
  ghost predicate Describes(r: Rows<Blob>, w: SecretWithPath) {
    && w.id in r.secrets
    && Joined(r, w.id) == Some(Path(w.id, w.folder, w.environment, w.project))
    && w.nameEnc == r.secrets[w.id].name && w.notesEnc == r.secrets[w.id].notes
    && w.environmentName == r.environments[w.environment].name
    && w.projectName == r.projects[w.project].name
    && w.folderName ==
         if w.folder.Some? && w.folder.value in r.folders then Some(r.folders[w.folder.value].name) else None
  }

  // ---- the bookkeeping of the transaction ----

  datatype Rec = Rec(cell: Cell, blob: Blob)

  /** The records are ciphertexts of `rows`, as they stand there. */
  ghost predicate Genuine(recs: seq<Rec>, rows: Rows<Blob>) {
    forall k | 0 <= k < |recs| :: Ciphertext(rows, recs[k].cell) && recs[k].blob == Get(rows, recs[k].cell)
  }

  ghost function CellsOf(recs: seq<Rec>): set<Cell> {
    set k | 0 <= k < |recs| :: recs[k].cell
  }

  ghost predicate NoRepeat(recs: seq<Rec>) {
    forall i, j | 0 <= i < j < |recs| :: recs[i].cell != recs[j].cell
  }

  lemma NoRepeatAppend(a: seq<Rec>, b: seq<Rec>)
    requires NoRepeat(a) && NoRepeat(b) && CellsOf(a) !! CellsOf(b)
    ensures NoRepeat(a + b)
  {
    forall i, j | 0 <= i < j < |a + b| ensures (a + b)[i].cell != (a + b)[j].cell {
      if i < |a| <= j {
        assert a[i].cell in CellsOf(a) && b[j - |a|].cell in CellsOf(b);
      }
    }
  }

  /** The columns read stand before the j-th of the i-th table. */
  ghost predicate DoneSoFar(recs: seq<Rec>, done: set<(Table, Column)>, i: nat, j: nat)
    requires i <= |ENCRYPTED_COLUMNS|
  {
    && (forall c | c in CellsOf(recs) :: (c.table, c.column) in done)
    && (forall p | p in done ::
          (exists a :: 0 <= a < i && ENCRYPTED_COLUMNS[a].0 == p.0)
          || (i < |ENCRYPTED_COLUMNS| && ENCRYPTED_COLUMNS[i].0 == p.0
              && exists b :: 0 <= b < j && b < |ENCRYPTED_COLUMNS[i].1| && ENCRYPTED_COLUMNS[i].1[b] == p.1))
  }

  /** What the reading of the columns before the j-th of the i-th table has collected. */
  ghost predicate Collected(rows: Rows<Blob>, recs: seq<Rec>, done: set<(Table, Column)>, i: nat, j: nat) {
    && i <= |ENCRYPTED_COLUMNS|
    && Genuine(recs, rows) && NoRepeat(recs) && DoneSoFar(recs, done, i, j)
    && (forall p | p in done :: ColumnCells(rows, p.0, p.1) <= CellsOf(recs))
    && (forall a | 0 <= a < i :: ColumnsIn(ENCRYPTED_COLUMNS[a].0, ENCRYPTED_COLUMNS[a].1, done))
    && (i < |ENCRYPTED_COLUMNS| ==>
          j <= |ENCRYPTED_COLUMNS[i].1| && ColumnsIn(ENCRYPTED_COLUMNS[i].0, ENCRYPTED_COLUMNS[i].1[..j], done))
  }

  lemma OneMoreColumn(rows: Rows<Blob>, recs: seq<Rec>, done: set<(Table, Column)>, got: seq<Rec>, i: nat, j: nat)
    requires Collected(rows, recs, done, i, j) && i < |ENCRYPTED_COLUMNS| && j < |ENCRYPTED_COLUMNS[i].1|
    requires Genuine(got, rows) && NoRepeat(got)
    requires forall c | c in CellsOf(got) :: c.table == ENCRYPTED_COLUMNS[i].0 && c.column == ENCRYPTED_COLUMNS[i].1[j]
    requires ColumnCells(rows, ENCRYPTED_COLUMNS[i].0, ENCRYPTED_COLUMNS[i].1[j]) <= CellsOf(got)
    ensures Collected(rows, recs + got, done + {(ENCRYPTED_COLUMNS[i].0, ENCRYPTED_COLUMNS[i].1[j])}, i, j + 1)
  {
    var (t, cols) := ENCRYPTED_COLUMNS[i];
    ColumnIsNew(recs, done, i, j);
    CellsOfAppend(recs, got);
    NoRepeatAppend(recs, got);
    ColumnDone(recs, done, got, i, j);
    assert cols[..j + 1] == cols[..j] + [cols[j]];
    hide CellsOf, ColumnCells, NoRepeat, DoneSoFar, ENCRYPTED_COLUMNS;
  }

  lemma ColumnDone(recs: seq<Rec>, done: set<(Table, Column)>, got: seq<Rec>, i: nat, j: nat)
    requires i < |ENCRYPTED_COLUMNS| && j < |ENCRYPTED_COLUMNS[i].1| && DoneSoFar(recs, done, i, j)
    requires forall c | c in CellsOf(got) :: c.table == ENCRYPTED_COLUMNS[i].0 && c.column == ENCRYPTED_COLUMNS[i].1[j]
    ensures DoneSoFar(recs + got, done + {(ENCRYPTED_COLUMNS[i].0, ENCRYPTED_COLUMNS[i].1[j])}, i, j + 1)
  {
    CellsOfAppend(recs, got);
    hide CellsOf, ENCRYPTED_COLUMNS;
  }

  lemma TableDone(rows: Rows<Blob>, recs: seq<Rec>, done: set<(Table, Column)>, i: nat)
    requires i < |ENCRYPTED_COLUMNS| && Collected(rows, recs, done, i, |ENCRYPTED_COLUMNS[i].1|)
    ensures Collected(rows, recs, done, i + 1, 0)
  {
    assert ENCRYPTED_COLUMNS[i].1[..|ENCRYPTED_COLUMNS[i].1|] == ENCRYPTED_COLUMNS[i].1;
    hide CellsOf, ColumnCells, NoRepeat, Genuine;
  }

  lemma AllCollected(rows: Rows<Blob>, recs: seq<Rec>, done: set<(Table, Column)>)
    requires Collected(rows, recs, done, |ENCRYPTED_COLUMNS|, 0)
    ensures Genuine(recs, rows) && NoRepeat(recs)
    ensures forall c | Ciphertext(rows, c) && !c.table.Vault? :: c in CellsOf(recs)
    ensures forall c | c in CellsOf(recs) :: !c.table.Vault?
  {
    forall c | Ciphertext(rows, c) && !c.table.Vault? ensures c in CellsOf(recs) {
      AllColumnsListed(done, c.table, c.column);
      assert c in ColumnCells(rows, c.table, c.column);
    }
  }

  lemma ColumnIsNew(recs: seq<Rec>, done: set<(Table, Column)>, i: nat, j: nat)
    requires i < |ENCRYPTED_COLUMNS| && j < |ENCRYPTED_COLUMNS[i].1| && DoneSoFar(recs, done, i, j)
    ensures forall c | c in CellsOf(recs) ::
      !(c.table == ENCRYPTED_COLUMNS[i].0 && c.column == ENCRYPTED_COLUMNS[i].1[j])
  {
    assert forall a | 0 <= a < i :: ENCRYPTED_COLUMNS[a].0 != ENCRYPTED_COLUMNS[i].0;
    assert forall b | 0 <= b < j :: ENCRYPTED_COLUMNS[i].1[b] != ENCRYPTED_COLUMNS[i].1[j];
  }

  ghost function ColumnCells(rows: Rows<Blob>, t: Table, col: Column): set<Cell> {
    set id | id in Ids(rows, t) :: Cell(t, col, id)
  }

  ghost predicate ColumnsIn(t: Table, cols: seq<Column>, done: set<(Table, Column)>) {
    forall b | 0 <= b < |cols| :: (t, cols[b]) in done
  }

  /** The transaction under way: the records done carry their new ciphertext, all
      other cells their old one. */
  ghost predicate HalfWritten(before: Rows<Blob>, now: Rows<Blob>, done: seq<Rec>, f: (Cell, Blob) -> Result<Blob>) {
    && SameShape(before, now)
    && forall c | Has(before, c) ::
         Has(now, c) && Get(now, c) == if c in CellsOf(done) then Transformed(f)(c, Get(before, c)) else Get(before, c)
  }

  lemma NothingWritten(before: Rows<Blob>, f: (Cell, Blob) -> Result<Blob>)
    ensures HalfWritten(before, before, [], f)
  {
  }

  lemma WriteStep(before: Rows<Blob>, now: Rows<Blob>, done: seq<Rec>, rec: Rec, made: Blob,
        f: (Cell, Blob) -> Result<Blob>)
    requires HalfWritten(before, now, done, f)
    requires Ciphertext(before, rec.cell) && rec.blob == Get(before, rec.cell) && f(rec.cell, rec.blob) == Ok(made)
    ensures Has(now, rec.cell) && HalfWritten(before, Put(now, rec.cell, made), done + [rec], f)
  {
    ShapeHas(before, now, rec.cell);
    PutKeepsShape(now, rec.cell, made);
    var next := Put(now, rec.cell, made);
    ShapeTransitive(now, before, next);
    CellsOfAppend(done, [rec]);
    assert CellsOf([rec]) == {rec.cell} by { assert [rec][0].cell == rec.cell; }
    hide SameShape, Put, Get, Has;
    forall c | Has(before, c)
      ensures Has(next, c)
      ensures Get(next, c) == if c in CellsOf(done + [rec]) then Transformed(f)(c, Get(before, c)) else Get(before, c)
    {
      PutLaw(now, rec.cell, made, c);
    }
  }

  lemma AllWritten(before: Rows<Blob>, now: Rows<Blob>, recs: seq<Rec>, f: (Cell, Blob) -> Result<Blob>)
    requires Genuine(recs, before) && HalfWritten(before, now, recs, f)
    requires forall c | Ciphertext(before, c) :: c in CellsOf(recs)
    requires forall i | 0 <= i < |recs| :: f(recs[i].cell, recs[i].blob).Ok?
    ensures AllTransform(before, f) && now == Recode(before, Transformed(f))
  {
    var want := Recode(before, Transformed(f));
    RecodeLaw(before, Transformed(f));
    ShapeTransitive(before, now, want);
    hide SameShape, Recode, Get, Has;
    forall c | Ciphertext(before, c) ensures f(c, Get(before, c)).Ok? {
      RecordedOnce(before, recs, f, c);
    }
    forall c | Has(now, c) ensures Get(now, c) == Get(want, c) {
      ShapeHas(before, now, c);
      if c !in CellsOf(recs) {
        assert !Ciphertext(before, c);
      }
    }
    hide Ciphertext;
    CellsDetermineRows(now, want);
  }

  lemma RecordedOnce(before: Rows<Blob>, recs: seq<Rec>, f: (Cell, Blob) -> Result<Blob>, c: Cell)
    requires Genuine(recs, before) && c in CellsOf(recs)
    requires forall i | 0 <= i < |recs| :: f(recs[i].cell, recs[i].blob).Ok?
    ensures Ciphertext(before, c) && f(c, Get(before, c)).Ok?
  {
    var k :| 0 <= k < |recs| && recs[k].cell == c;
  }

  lemma CellsOfAppend(a: seq<Rec>, b: seq<Rec>)
    ensures CellsOf(a + b) == CellsOf(a) + CellsOf(b)
  {
    forall c | c in CellsOf(a) + CellsOf(b) ensures c in CellsOf(a + b) {
      if c in CellsOf(a) {
        var k :| 0 <= k < |a| && a[k].cell == c;
        assert (a + b)[k].cell == c;
      } else {
        var k :| 0 <= k < |b| && b[k].cell == c;
        assert (a + b)[|a| + k].cell == c;
      }
    }
  }

  /** The list of encrypted columns misses none. */
  lemma AllColumnsListed(done: set<(Table, Column)>, t: Table, col: Column)
    requires forall a | 0 <= a < |ENCRYPTED_COLUMNS| :: ColumnsIn(ENCRYPTED_COLUMNS[a].0, ENCRYPTED_COLUMNS[a].1, done)
    requires IsColumn(t, col) && !t.Vault?
    ensures (t, col) in done
  {
    var a := match t case Projects => 0 case Environments => 1 case Folders => 2 case Secrets => 3 case _ => 4;
    var b := if t.Secrets? && col.ValueEnc? then 1 else if t.Secrets? && col.NotesEnc? then 2
             else if t.Attachments? && col.DataEnc? then 1 else 0;
    assert ColumnsIn(ENCRYPTED_COLUMNS[a].0, ENCRYPTED_COLUMNS[a].1, done);
    assert ENCRYPTED_COLUMNS[a].0 == t && ENCRYPTED_COLUMNS[a].1[b] == col;
  }
}
