/** Schema migrations: one transaction a version, resumable after any commit. */
module Migrate {
  import opened Common
  import opened Aead
  import opened Tables
  import opened VaultSpec

  const LATEST := 4

  datatype VaultTable = VaultTable(row: Option<VaultRow>, totp: Option<Blob>)

  /** A secret of the first version could only hang under a folder. */
  datatype OldSecret = OldSecret(folder: Id, name: Blob, value: Blob, notes: Blob)

  datatype SecretsTable =
    | FolderOnly(first: map<Id, OldSecret>)
    | FolderOrEnvironment(rows: map<Id, SecretRow<Blob>>)

  /** A database file: its version counter and those tables that exist. */
  datatype Db = Db(
    version: int,
    vault: Option<VaultTable>,
    projects: Option<map<Id, ProjectRow<Blob>>>,
    environments: Option<map<Id, EnvironmentRow<Blob>>>,
    folders: Option<map<Id, FolderRow<Blob>>>,
    secrets: Option<SecretsTable>,
    settings: Option<map<string, string>>,
    attachments: Option<map<Id, AttachmentRow<Blob>>>)

  // ---- the four scripts ----

  function Script1(d: Db): Option<Db> {
    if d.vault.Some? || d.projects.Some? || d.environments.Some? || d.folders.Some? || d.secrets.Some? then None
    else
      Some(d.(vault := Some(VaultTable(None, None)), projects := Some(map[]), environments := Some(map[]),
              folders := Some(map[]), secrets := Some(FolderOnly(map[]))))
  }

  /** The columns that the rebuild copies, as far as a row has them. */
  function CopiedFrom(t: SecretsTable): map<Id, SecretRow<Blob>> {
    match t
    case FolderOnly(first) =>
      map id | id in first :: SecretRow(Some(first[id].folder), None, first[id].name, first[id].value, first[id].notes)
    case FolderOrEnvironment(rows) => map id | id in rows :: rows[id].(environment := None)
  }

  /** The tables that the rebuilt one refers to exist, and its exclusive-or check
      and its foreign keys hold of every row. */
  predicate Copyable(rows: map<Id, SecretRow<Blob>>, d: Db) {
    && d.folders.Some? && d.environments.Some?
    && forall id | id in rows :: rows[id].folder.Some? && rows[id].folder.value in d.folders.value
  }

  /** Rebuilds the table; dropping the old one cascades to attachments, should a
      file of this age have any. */
  function Script2(d: Db): Option<Db> {
    if d.secrets.None? then None
    else
      var rows := CopiedFrom(d.secrets.value);
      if !Copyable(rows, d) then None
      else
        Some(d.(secrets := Some(FolderOrEnvironment(rows)),
                attachments := if d.attachments.None? then None
                  else Some(map a | a in d.attachments.value && d.attachments.value[a].secret !in rows ::
                    d.attachments.value[a])))
  }

  function Script3(d: Db): Option<Db> {
    if d.settings.Some? then None else Some(d.(settings := Some(map[])))
  }

  function Script4(d: Db): Option<Db> {
    if d.attachments.Some? then None else Some(d.(attachments := Some(map[])))
  }

  /** What the rebuild of the secrets does to any file it goes through on: every secret
      stays, under its folder alone, and attachments stay exactly if they have no secret. */
  lemma RebuildKeeps(d: Db)
    requires Script2(d).Some?
    ensures var d' := Script2(d).value; var rows := Reading(d').rows.secrets;
      && d' == d.(secrets := d'.secrets, attachments := d'.attachments)
      && rows.Keys == Reading(d).rows.secrets.Keys
      && (forall id | id in rows ::
            rows[id] == Reading(d).rows.secrets[id].(environment := None) && rows[id].folder.Some?
            && rows[id].folder.value in Reading(d).rows.folders)
      && d'.attachments.Some? == d.attachments.Some?
      && (forall a :: a in Reading(d').rows.attachments <==>
            a in Reading(d).rows.attachments && Reading(d).rows.attachments[a].secret !in rows)
      && (forall a | a in Reading(d').rows.attachments ::
            Reading(d').rows.attachments[a] == Reading(d).rows.attachments[a])
  {
  }

  /** None where a statement fails and the transaction rolls back. */
  function Script(i: nat, d: Db): Option<Db>
    requires i < LATEST
  {
    match i
    case 0 => Script1(d)
    case 1 => Script2(d)
    case 2 => Script3(d)
    case 3 => Script4(d)
  }

  // ---- migrating ----

  datatype Outcome =
    | Done
    | TooNew
    | Failed(migration: int)
    | Panicked              // a negative counter indexes before the first script
    | Interrupted

  function Migrated(d: Db, commits: nat): (Db, Outcome)
    decreases commits
  {
    if d.version > LATEST then (d, TooNew)
    else if d.version == LATEST then (d, Done)
    else if d.version < 0 then (d, Panicked)
    else
      match Script(d.version, d)
      case None => (d, Failed(d.version + 1))
      case Some(d') => if commits == 0 then (d, Interrupted) else Migrated(d'.(version := d.version + 1), commits - 1)
  }

  class File {
    var db: Db

    constructor (db: Db)
      ensures this.db == db
    {
      this.db := db;
    }

    /** The loop over the scripts; the machine stops before commit number `commits`. */
    method Migrate(commits: nat) returns (r: Outcome)
      modifies this
      ensures (db, r) == Migrated(old(db), commits)
    {
      var version := db.version;
      if version > LATEST {
        return TooNew;
      }
      var i, left := version, commits;
      while i < LATEST
        invariant i == db.version <= LATEST
        invariant Migrated(old(db), commits) == Migrated(db, left)
        decreases LATEST - i
      {
        if i < 0 {
          return Panicked;
        }
        var tx := Script(i, db);
        if tx.None? {
          return Failed(i + 1);
        }
        if left == 0 {
          return Interrupted;
        }
        db, left := tx.value.(version := i + 1), left - 1;
        i := i + 1;
      }
      return Done;
    }

    /** The vetting of a file before it may replace the vault. */
    method Validate() returns (ok: bool)
      ensures ok == Accepted(db)
    {
      if db.version < 1 || db.version > LATEST {
        return false;
      }
      if db.vault.None? {
        return false;
      }
      return db.vault.value.row.Some?;
    }
  }

  predicate Accepted(d: Db) {
    1 <= d.version <= LATEST && d.vault.Some? && d.vault.value.row.Some?
  }

  // ---- stopping and resuming ----

  function AfterStops(d: Db, stops: seq<nat>): Db
    decreases |stops|
  {
    if stops == [] then d else AfterStops(Migrated(d, stops[0]).0, stops[1..])
  }

  /** Two runs are one run of as many commits. */
  lemma {:induction false} Resumes(d: Db, n: nat, m: nat)
    ensures Migrated(Migrated(d, n).0, m) == Migrated(d, n + m)
    decreases n
  {
    if 0 <= d.version < LATEST && Script(d.version, d).Some? && n > 0 {
      Resumes(Script(d.version, d).value.(version := d.version + 1), n - 1, m);
    }
  }

  lemma {:induction false} FourAreEnough(d: Db, n: nat)
    requires n >= LATEST - d.version
    ensures Migrated(d, n) == Migrated(d, n + 1) && !Migrated(d, n).1.Interrupted?
    decreases n
  {
    if 0 <= d.version < LATEST && Script(d.version, d).Some? {
      FourAreEnough(Script(d.version, d).value.(version := d.version + 1), n - 1);
    }
  }

  lemma {:induction false} MoreChangesNothing(d: Db, n: nat, m: nat)
    requires n >= LATEST - d.version
    ensures Migrated(d, n + m) == Migrated(d, n)
    decreases m
  {
    if m > 0 {
      MoreChangesNothing(d, n, m - 1);
      FourAreEnough(d, n + m - 1);
    }
  }

  /** Stopped between commits however often, a run that then gets through ends
      where an undisturbed one does. */
  lemma {:induction false} StopsDoNotMatter(d: Db, stops: seq<nat>, n: nat)
    requires d.version >= 0 && n >= LATEST
    ensures Migrated(AfterStops(d, stops), n) == Migrated(d, n)
    decreases |stops|
  {
    if stops != [] {
      StopsDoNotMatterOnce(d, stops[0], n);
      StopsDoNotMatter(Migrated(d, stops[0]).0, stops[1..], n);
    }
  }

  lemma StopsDoNotMatterOnce(d: Db, stop: nat, n: nat)
    requires d.version >= 0 && n >= LATEST
    ensures Migrated(Migrated(d, stop).0, n) == Migrated(d, n) && Migrated(d, stop).0.version >= 0
  {
    Resumes(d, stop, n);
    MoreChangesNothing(d, n, stop);
    VersionRises(d, stop);
  }

  lemma {:induction false} VersionRises(d: Db, n: nat)
    ensures Migrated(d, n).0.version >= d.version
    decreases n
  {
    if 0 <= d.version < LATEST && Script(d.version, d).Some? && n > 0 {
      VersionRises(Script(d.version, d).value.(version := d.version + 1), n - 1);
    }
  }

  // ---- what migrating keeps ----

  function OrElse<T>(o: Option<T>, other: T): T {
    if o.Some? then o.value else other
  }

  /** The vault a file of any version holds. */
  function Reading(d: Db): State {
    var v := OrElse(d.vault, VaultTable(None, None));
    State(v.row, Rows(
      OrElse(d.projects, map[]), OrElse(d.environments, map[]), OrElse(d.folders, map[]),
      match d.secrets
        case None => map[]
        case Some(FolderOnly(first)) => CopiedFrom(FolderOnly(first))
        case Some(FolderOrEnvironment(rows)) => rows,
      OrElse(d.attachments, map[]),
      v.totp))
  }

  /** The file has the tables of its version. */
  predicate Fits(d: Db) {
    var base := d.version >= 1;
    && 0 <= d.version <= LATEST
    && d.vault.Some? == d.projects.Some? == d.environments.Some? == d.folders.Some? == d.secrets.Some? == base
    && (base ==> d.secrets.value.FolderOnly? == (d.version == 1))
    && d.settings.Some? == (d.version >= 3)
    && d.attachments.Some? == (d.version >= 4)
  }

  /** From every supported version, after any number of commits the file holds the
      same vault: every id, parent, ciphertext and counter, and the settings; run to
      the end it is at the newest version, with every link and the
      exclusive-or check of the secrets intact. */
  lemma {:induction false} MigrationPreserves(d: Db, commits: nat)
    requires Fits(d) && Intact(Reading(d).rows)
    ensures var (d', r) := Migrated(d, commits);
      && Fits(d')
      && Reading(d') == Reading(d)
      && Intact(Reading(d').rows)
      && OrElse(d'.settings, map[]) == OrElse(d.settings, map[])
      && r == (if d.version + commits >= LATEST then Done else Interrupted)
      && d'.version == (if r.Done? then LATEST else d.version + commits)
    decreases commits
  {
    if d.version < LATEST {
      ScriptPreserves(d);
      if commits > 0 {
        MigrationPreserves(Script(d.version, d).value.(version := d.version + 1), commits - 1);
      }
    }
  }

  lemma ScriptPreserves(d: Db)
    requires Fits(d) && Intact(Reading(d).rows) && d.version < LATEST
    ensures Script(d.version, d).Some?
    ensures var d' := Script(d.version, d).value.(version := d.version + 1);
      Fits(d') && Reading(d') == Reading(d) && OrElse(d'.settings, map[]) == OrElse(d.settings, map[])
  {
    if d.version == 1 {
      assert CopiedFrom(d.secrets.value) == Reading(d).rows.secrets;
    }
  }

  /** A database without tables. */
  const BLANK := Db(0, None, None, None, None, None, None, None)

  /** A first boot leaves an empty vault. */
  lemma FreshFile(d: Db)
    requires Fits(d) && d.version == 0
    ensures Migrated(d, LATEST).1.Done? && Reading(Migrated(d, LATEST).0) == NEW_STATE
  {
    MigrationPreserves(d, LATEST);
  }

  /** A vetted file passes the version guard; one with the tables of its version
      migrates, with its vault row. */
  lemma AcceptedFilesPass(d: Db)
    requires Accepted(d)
    ensures !Migrated(d, LATEST).1.TooNew? && !Migrated(d, LATEST).1.Panicked?
    ensures Fits(d) && Intact(Reading(d).rows) ==>
      Migrated(d, LATEST).1.Done? && Reading(Migrated(d, LATEST).0).vault == d.vault.value.row
  {
    NoPanic(d, LATEST);
    if Fits(d) && Intact(Reading(d).rows) {
      MigrationPreserves(d, LATEST);
    }
  }

  /** Among the files that have the tables of their version vetting accepts exactly those
      that hold a vault that was set up. */
  lemma VettedExactly(d: Db)
    requires Fits(d)
    ensures Accepted(d) <==> Reading(d).vault.Some?
  {
  }

  lemma {:induction false} NoPanic(d: Db, n: nat)
    requires 0 <= d.version <= LATEST
    ensures !Migrated(d, n).1.TooNew? && !Migrated(d, n).1.Panicked?
    decreases n
  {
    if d.version < LATEST && Script(d.version, d).Some? && n > 0 {
      NoPanic(Script(d.version, d).value.(version := d.version + 1), n - 1);
    }
  }

  /** Exactly the files that migrate to the end. */
  predicate Ready(d: Db) {
    && 0 <= d.version <= LATEST
    && (d.version == 0 ==>
         d.vault.None? && d.projects.None? && d.environments.None? && d.folders.None? && d.secrets.None?)
    && (d.version == 1 ==> d.secrets.Some? && Copyable(CopiedFrom(d.secrets.value), d))
    && (d.version <= 2 ==> d.settings.None?)
    && (d.version <= 3 ==> d.attachments.None?)
  }

  lemma {:induction false} MigratesExactly(d: Db, n: nat)
    requires n >= LATEST - d.version
    ensures Migrated(d, n).1.Done? <==> Ready(d)
    decreases n
  {
    if 0 <= d.version < LATEST && Script(d.version, d).Some? {
      MigratesExactly(Script(d.version, d).value.(version := d.version + 1), n - 1);
    }
  }

  lemma {:induction false} DoneIsLatest(d: Db, n: nat)
    requires Migrated(d, n).1.Done?
    ensures Migrated(d, n).0.version == LATEST
    decreases n
  {
    if d.version < LATEST {
      DoneIsLatest(Script(d.version, d).value.(version := d.version + 1), n - 1);
    }
  }

  // ---- files that do not migrate ----

  /** The loop over the scripts indexes out of range exactly when the version counter
      is negative. */
  lemma {:induction false} PanicsExactly(d: Db, n: nat)
    ensures Migrated(d, n).1.Panicked? <==> d.version < 0
    decreases n
  {
    if 0 <= d.version < LATEST && Script(d.version, d).Some? && n > 0 {
      PanicsExactly(Script(d.version, d).value.(version := d.version + 1), n - 1);
    }
  }

  /** A file with tables as usual and a counter of minus one. */
  lemma NegativeVersionPanics(n: nat)
    ensures var d := Db(-1, Some(VaultTable(None, None)), None, None, None, None, None, None);
      Migrated(d, n) == (d, Panicked)
  {
  }

  /** A missing parent table stops the second script even when there is no secret. */
  lemma MissingParentFails(row: VaultRow)
    ensures var d := Db(1, Some(VaultTable(Some(row), None)), Some(map[]), None, Some(map[]), Some(FolderOnly(map[])),
                        None, None);
      Accepted(d) && !Ready(d) && Migrated(d, LATEST).1 == Failed(2)
  {
  }

  /** A file of the first version with a vault row and no other table. */
  function WithoutSecrets(row: VaultRow): Db {
    Db(1, Some(VaultTable(Some(row), None)), None, None, None, None, None, None)
  }

  /** A file of the newest version with a vault and nothing in it. */
  function WithVault(row: VaultRow): Db {
    Db(LATEST, Some(VaultTable(Some(row), None)), Some(map[]), Some(map[]), Some(map[]),
       Some(FolderOrEnvironment(map[])), Some(map[]), Some(map[]))
  }

  /** Vetting looks at the counter and the vault row only: a file it accepts may
      still fail to migrate, and then the program does not start. */
  lemma AcceptedMayFail(row: VaultRow)
    ensures var d := WithoutSecrets(row); Accepted(d) && !Ready(d) && Migrated(d, LATEST).1 == Failed(2)
  {
  }
}
