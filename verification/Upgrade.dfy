/** A backup on its way back: vetting looks at its version and its vault row, the boot
    swaps it in, and opening the store migrates it. */
module Upgrade {
  import opened Common
  import opened Restore
  import Migrate
  import Tables
  import VaultSpec

  /** The database that the vault's files hold. */
  type Decode = Files -> Migrate.Db

  /** The files after a transaction that leaves the given database. */
  type Commit = (Files, Migrate.Db) -> Files

  /** The database after the next migration, if there is one and it succeeds. */
  function Stepped(d: Migrate.Db): Option<Migrate.Db> {
    if !(0 <= d.version < Migrate.LATEST) then None
    else match Migrate.Script(d.version, d)
      case None => None
      case Some(d') => Some(d'.(version := d.version + 1))
  }

  /** Committing a migration leaves files that hold the migrated database. */
  predicate CommitHolds(decode: Decode, commit: Commit, v: Files) {
    Stepped(decode(v)).Some? ==>
      var v' := commit(v, Stepped(decode(v)).value);
      decode(v') == Stepped(decode(v)).value && Live in v' && v'.Keys <= LIVE_FILES
  }

  ghost predicate Faithful(decode: Decode, commit: Commit) {
    forall v: Files | Live in v :: CommitHolds(decode, commit, v)
  }

  function OpenOnce(decode: Decode, commit: Commit, v: Files): Opening {
    var d := decode(v);
    if d.version == Migrate.LATEST then Through
    else match Stepped(d)
      case None => Denied
      case Some(d') => Onward(commit(v, d'))
  }

  function Store(decode: Decode, commit: Commit): Engine {
    Engine((b: Bytes) => Migrate.Accepted(decode(map[Live := b])), (v: Files) => OpenOnce(decode, commit, v),
           Migrate.LATEST + 1)
  }

  /** Opening the store step by step is the migration, stopped between commits. */
  lemma {:induction false} Follows(decode: Decode, commit: Commit, v: Files, n: nat)
    requires Faithful(decode, commit) && Live in v
    ensures var en := Store(decode, commit);
      var v', (d, r) := Advanced(en, v, n), Migrate.Migrated(decode(v), n);
      && Live in v' && decode(v') == d
      && (OpenStep(en, v').Through? <==> r.Done?) && (OpenStep(en, v').Onward? <==> r.Interrupted?)
    decreases n
  {
    var en, d := Store(decode, commit), decode(v);
    if n > 0 && OpenStep(en, v).Onward? {
      assert CommitHolds(decode, commit, v);
      var v' := commit(v, Stepped(d).value);
      assert Vault(v') == v';
      assert OpenStep(en, v) == Onward(v');
      Follows(decode, commit, v', n - 1);
    }
    hide Migrate.Script;
  }

  lemma StoreIsLawful(decode: Decode, commit: Commit)
    requires Faithful(decode, commit)
    ensures Lawful(Store(decode, commit))
  {
    var en := Store(decode, commit);
    forall v: Files ensures !OpenStep(en, Advanced(en, v, en.most)).Onward? {
      if Live in v {
        AllStepsEnd(decode, commit, v, Migrate.LATEST + 1);
      } else {
        AllStepsEnd(decode, commit, v[Live := NEW_DB], Migrate.LATEST);
      }
    }
  }

  lemma AllStepsEnd(decode: Decode, commit: Commit, v: Files, n: nat)
    requires Faithful(decode, commit) && Live in v && n >= Migrate.LATEST
    ensures !OpenStep(Store(decode, commit), Advanced(Store(decode, commit), v, n)).Onward?
  {
    Follows(decode, commit, v, n);
    if decode(v).version >= 0 {
      Migrate.FourAreEnough(decode(v), n);
    }
  }

  function Created(v: Files): Files {
    if Live in v then v else v[Live := NEW_DB]
  }

  /** The store comes open exactly over a database that is ready to migrate, and then
      holds what migrating it leaves. */
  lemma OpensExactly(decode: Decode, commit: Commit, v: Files)
    requires Faithful(decode, commit)
    ensures var en, d := Store(decode, commit), decode(Created(v));
      && (Opens(en, v) <==> Migrate.Ready(d))
      && (Opens(en, v) ==> decode(Settled(en, v)) == Migrate.Migrated(d, Migrate.LATEST).0)
  {
    var d := decode(Created(v));
    var n := if Live in v then Migrate.LATEST + 1 else Migrate.LATEST;
    Follows(decode, commit, Created(v), n);
    if d.version >= 0 {
      Migrate.MigratesExactly(d, n);
      Migrate.MoreChangesNothing(d, Migrate.LATEST, n - Migrate.LATEST);
    }
    hide Migrate.Ready;
  }

  /** The run starts when the program went down after it had committed the upload;
      before that it may have gone on changing its database. */
  predicate DownAfter(w: World, after: Files) {
    !w.up && w.files - LIVE_FILES == after - LIVE_FILES
  }

  lemma Waits(en: Engine, before: Files, after: Files, src: Bytes, w: World)
    requires Staged(en.valid, before, after, src, Committed) && DownAfter(w, after)
    ensures Meant(en, w.files).due == Some(Kept(src))
  {
    assert Pending in after - LIVE_FILES && (after - LIVE_FILES)[Pending] == after[Pending];
    assert Pending in w.files - LIVE_FILES && (w.files - LIVE_FILES)[Pending] == w.files[Pending];
  }

  /** After a committed upload the program comes to serve again, at a boot that is not
      stopped or before, exactly when the backup is ready to migrate. Vetting does not
      ask for that much. */
  lemma RestoreServesExactly(decode: Decode, commit: Commit, before: Files, after: Files, src: Bytes,
                             ws: seq<World>, es: seq<Event>, k: nat)
    requires Faithful(decode, commit) && Run(Store(decode, commit), ws, es)
    requires Staged(Store(decode, commit).valid, before, after, src, Committed) && DownAfter(ws[0], after)
    requires k < |es| && es[k].BootEvent?
    requires es[k].patience >= OperationsLeft(Store(decode, commit), Start(Store(decode, commit), ws[k].files))
    ensures (exists i :: 0 <= i <= |es| && ws[i].up) <==> Migrate.Ready(decode(map[Live := Kept(src)]))
  {
    var en := Store(decode, commit);
    StoreIsLawful(decode, commit);
    Waits(en, before, after, src, ws[0]);
    OpensExactly(decode, commit, map[Live := Kept(src)]);
    hide Store, Faithful, Opens, Migrate.Ready;
    ServesExactly(en, ws, es, k);
  }

  /** The first vault served after a committed upload is the migrated backup: the same
      content, if the backup has the tables of its version. */
  lemma RestoredIsServed(decode: Decode, commit: Commit, before: Files, after: Files, src: Bytes,
                         ws: seq<World>, es: seq<Event>)
    requires Faithful(decode, commit) && Run(Store(decode, commit), ws, es)
    requires Staged(Store(decode, commit).valid, before, after, src, Committed) && DownAfter(ws[0], after)
    requires es != [] && ws[|es|].up && forall i | 0 <= i < |es| :: !ws[i].up
    ensures var backup, served := decode(map[Live := Kept(src)]), decode(Vault(ws[|es|].files));
      && served == Migrate.Migrated(backup, Migrate.LATEST).0
      && served.version == Migrate.LATEST
      && (Migrate.Fits(backup) && Tables.Intact(Migrate.Reading(backup).rows) ==>
            Migrate.Reading(served) == Migrate.Reading(backup))
  {
    var en, n := Store(decode, commit), |es| - 1;
    StoreIsLawful(decode, commit);
    Waits(en, before, after, src, ws[0]);
    var a := Meant(en, ws[0].files);
    MeantMatches(en, ws[0].files);
    FirstServes(en, ws, es, a, |es|);
    NothingServed(en, ws, es, a, n);
    assert Next(en, ws[n], es[n], ws[n + 1]);
    NextMatches(en, ws[n], es[n], ws[n + 1], a);
    assert Vault(ws[|es|].files) == Settled(en, map[Live := Kept(src)]);
    hide Opens, Faithful, Matches, Store, Lawful;
    ServedIsMigrated(decode, commit, map[Live := Kept(src)]);
  }

  lemma ServedIsMigrated(decode: Decode, commit: Commit, v: Files)
    requires Faithful(decode, commit) && Live in v && Opens(Store(decode, commit), v)
    ensures var backup, served := decode(v), decode(Settled(Store(decode, commit), v));
      && served == Migrate.Migrated(backup, Migrate.LATEST).0
      && served.version == Migrate.LATEST
      && (Migrate.Fits(backup) && Tables.Intact(Migrate.Reading(backup).rows) ==>
            Migrate.Reading(served) == Migrate.Reading(backup))
  {
    OpensExactly(decode, commit, v);
    var backup := decode(v);
    hide Opens, Faithful, Store;
    Migrate.MigratesExactly(backup, Migrate.LATEST);
    Migrate.DoneIsLatest(backup, Migrate.LATEST);
    if Migrate.Fits(backup) && Tables.Intact(Migrate.Reading(backup).rows) {
      Migrate.MigrationPreserves(backup, Migrate.LATEST);
    }
  }

  /** A backup that passes vetting and after which the program never serves again, nor
      any other time it is started. */
  lemma VettedMayNeverServe(decode: Decode, commit: Commit, before: Files, after: Files, src: Bytes,
                            row: VaultSpec.VaultRow, ws: seq<World>, es: seq<Event>)
    requires Faithful(decode, commit) && Run(Store(decode, commit), ws, es)
    requires decode(map[Live := Kept(src)]) == Migrate.WithoutSecrets(row)
    requires after == (before - {Staging})[Pending := Kept(src)] && DownAfter(ws[0], after)
    ensures Staged(Store(decode, commit).valid, before, after, src, Committed)
    ensures forall i | 0 <= i <= |es| :: !ws[i].up
  {
    var en := Store(decode, commit);
    Migrate.AcceptedMayFail(row);
    StoreIsLawful(decode, commit);
    assert en.valid(Kept(src));
    Waits(en, before, after, src, ws[0]);
    OpensExactly(decode, commit, map[Live := Kept(src)]);
    MeantMatches(en, ws[0].files);
    hide Faithful, Lawful, Matches, Store;
    if i :| 0 <= i <= |es| && ws[i].up {
      FirstServes(en, ws, es, Meant(en, ws[0].files), i);
    }
  }

  // ---- the first start ----

  /** Over a directory without a database, if an empty file holds an empty database, a
      boot that is not stopped serves an empty vault of the newest version. */
  lemma FirstStartServesEmpty(decode: Decode, commit: Commit, f: Files, patience: nat)
    requires Faithful(decode, commit) && decode(map[Live := NEW_DB]) == Migrate.BLANK
    requires Vault(f) == map[] && Pending !in f
    requires patience >= OperationsLeft(Store(decode, commit), Start(Store(decode, commit), f))
    ensures var (f', pc) := Boot(Store(decode, commit), f, Start(Store(decode, commit), f), patience);
      && pc.Serving?
      && decode(Vault(f')).version == Migrate.LATEST
      && Migrate.Reading(decode(Vault(f'))) == VaultSpec.NEW_STATE
  {
    var en, a := Store(decode, commit), Meant(Store(decode, commit), f);
    assert Created(map[]) == map[Live := NEW_DB] && a.Coming() == map[];
    StoreIsLawful(decode, commit);
    OpensExactly(decode, commit, map[]);
    Migrate.FreshFile(Migrate.BLANK);
    Migrate.DoneIsLatest(Migrate.BLANK, Migrate.LATEST);
    hide Store, Faithful, Lawful;
    BootServesExactly(en, f, patience);
    MeantMatches(en, f);
    StartMatches(en, f, a);
    BootKeepsMatch(en, f, Start(en, f), patience, a);
    hide Migrate.Migrated, Migrate.Reading;
  }

  // ---- files that obey the laws ----

  /** A file of one byte: that many migrations of an empty database; a vetted backup
      that does not migrate; or one that does. */
  function SampleDecode(row: VaultSpec.VaultRow): Decode {
    (v: Files) =>
      if Live !in v || v[Live] == [] then Migrate.BLANK
      else if v[Live][0] <= Migrate.LATEST then Migrate.Migrated(Migrate.BLANK, v[Live][0]).0
      else if v[Live][0] == 5 then Migrate.WithoutSecrets(row)
      else Migrate.WithVault(row)
  }

  function SampleCommit(): Commit {
    (v: Files, d: Migrate.Db) => map[Live := if 0 <= d.version <= Migrate.LATEST then [d.version as byte] else []]
  }

  /** The laws can be met, with an empty new file, a backup that migrates and one that
      does not. */
  lemma SampleIsFaithful(row: VaultSpec.VaultRow)
    ensures var decode := SampleDecode(row);
      && Faithful(decode, SampleCommit())
      && decode(map[Live := NEW_DB]) == Migrate.BLANK
      && decode(map[Live := [5]]) == Migrate.WithoutSecrets(row)
      && (var good := decode(map[Live := [6]]); Migrate.Accepted(good) && Migrate.Ready(good))
  {
    var decode, commit := SampleDecode(row), SampleCommit();
    Migrate.AcceptedMayFail(row);
    forall v: Files | Live in v ensures CommitHolds(decode, commit, v) {
      var n := if v[Live] == [] then 0 else v[Live][0];
      if n <= Migrate.LATEST {
        BlankSteps(n);
        assert Migrate.Migrated(Migrate.BLANK, 0).0 == Migrate.BLANK;
      } else if n == 5 {
        assert Stepped(Migrate.WithoutSecrets(row)).None?;
      }
    }
    hide Migrate.Migrated;
  }

  lemma BlankSteps(n: nat)
    requires n <= Migrate.LATEST
    ensures var d := Migrate.Migrated(Migrate.BLANK, n).0;
      && d.version == n
      && (n < Migrate.LATEST ==> Stepped(d) == Some(Migrate.Migrated(Migrate.BLANK, n + 1).0))
      && (n == Migrate.LATEST ==> Stepped(d) == None)
    ensures n < Migrate.LATEST ==> Migrate.Migrated(Migrate.BLANK, n + 1).0.version == n + 1
  {
    var d := Migrate.Migrated(Migrate.BLANK, n).0;
    Migrate.MigrationPreserves(Migrate.BLANK, n);
    if n < Migrate.LATEST {
      Migrate.MigrationPreserves(Migrate.BLANK, n + 1);
      Migrate.Resumes(Migrate.BLANK, n, 1);
      assert Migrate.Migrated(d, 1).0 == Migrate.Migrated(Stepped(d).value, 0).0 == Stepped(d).value;
    }
    hide Migrate.Script;
  }
}
