/** Where a secret hangs: the joined view that search uses, the nested view of the
    project tree, and the counts shown before a deletion. */
module Paths {
  import opened Common
  import opened Tables

  datatype Path = Path(secret: Id, folder: Option<Id>, environment: Id, project: Id)

  /** One row of the join over folders (left), environments and projects (inner). */
  function Joined<T>(r: Rows<T>, s: Id): Option<Path>
    requires s in r.secrets
  {
    var e := SecretEnvironment(r, r.secrets[s]);
    if e.None? || e.value !in r.environments || r.environments[e.value].project !in r.projects then None
    else Some(Path(s, r.secrets[s].folder, e.value, r.environments[e.value].project))
  }

  ghost function JoinedPaths<T>(r: Rows<T>): set<Path> {
    set s | s in r.secrets && Joined(r, s).Some? :: Joined(r, s).value
  }

  /** The paths met by opening every project, its environments, their folders and
      the secrets in each, and the loose secrets of each environment. */
  ghost function BrowsedPaths<T>(r: Rows<T>): set<Path> {
    (set p, e, f, s | p in r.projects && e in ChildEnvironments(r, p) && f in ChildFolders(r, e)
      && s in FolderSecrets(r, f)
      :: Path(s, Some(f), e, p))
    + (set p, e, s | p in r.projects && e in ChildEnvironments(r, p) && s in LooseSecrets(r, e) :: Path(s, None, e, p))
  }

  function ChildEnvironments<T>(r: Rows<T>, p: Id): set<Id> {
    set e | e in r.environments && r.environments[e].project == p
  }

  function ChildFolders<T>(r: Rows<T>, e: Id): set<Id> {
    set f | f in r.folders && r.folders[f].environment == e
  }

  function FolderSecrets<T>(r: Rows<T>, f: Id): set<Id> {
    set s | s in r.secrets && r.secrets[s].folder == Some(f)
  }

  function LooseSecrets<T>(r: Rows<T>, e: Id): set<Id> {
    set s | s in r.secrets && r.secrets[s].environment == Some(e)
  }

  /** The two views agree, and every secret stands in them exactly once. */
  lemma JoinAgreesWithBrowse<T>(r: Rows<T>)
    requires Intact(r)
    ensures JoinedPaths(r) == BrowsedPaths(r)
    ensures forall s | s in r.secrets :: exists p :: p in BrowsedPaths(r) && p.secret == s
    ensures forall p, q | p in BrowsedPaths(r) && q in BrowsedPaths(r) && p.secret == q.secret :: p == q
  {
    forall s | s in r.secrets ensures Joined(r, s).Some? && Joined(r, s).value in BrowsedPaths(r) {
      JoinedIsBrowsed(r, s);
    }
    forall p | p in BrowsedPaths(r) ensures p.secret in r.secrets && Joined(r, p.secret) == Some(p) {
      BrowsedIsJoined(r, p);
    }
  }

  lemma JoinedIsBrowsed<T>(r: Rows<T>, s: Id)
    requires Intact(r) && s in r.secrets
    ensures Joined(r, s).Some? && Joined(r, s).value in BrowsedPaths(r)
  {
    var e := SecretEnvironment(r, r.secrets[s]).value;
    assert e in ChildEnvironments(r, r.environments[e].project);
    if r.secrets[s].folder.Some? {
      assert r.secrets[s].folder.value in ChildFolders(r, e) && s in FolderSecrets(r, r.secrets[s].folder.value);
    } else {
      assert s in LooseSecrets(r, e);
    }
  }

  lemma BrowsedIsJoined<T>(r: Rows<T>, p: Path)
    requires Intact(r) && p in BrowsedPaths(r)
    ensures p.secret in r.secrets && Joined(r, p.secret) == Some(p)
  {
  }

  // ---- the counts shown before a deletion ----

  function ProjectSecrets<T>(r: Rows<T>, p: Id): set<Id> {
    set s | s in r.secrets && SecretProject(r, r.secrets[s]) == Some(p)
  }

  function EnvironmentSecrets<T>(r: Rows<T>, e: Id): set<Id> {
    set s | s in r.secrets && SecretEnvironment(r, r.secrets[s]) == Some(e)
  }

  function ProjectCounts<T>(r: Rows<T>, id: Id): (nat, nat) {
    (|ChildEnvironments(r, id)|, |ProjectSecrets(r, id)|)
  }

  function EnvCounts<T>(r: Rows<T>, id: Id): (nat, nat) {
    (|ChildFolders(r, id)|, |EnvironmentSecrets(r, id)|)
  }

  function FolderCounts<T>(r: Rows<T>, id: Id): nat {
    |FolderSecrets(r, id)|
  }

  /** The counts are the numbers of rows that the cascading deletion takes away. */
  lemma ProjectCountsAreWhatGoes<T>(r: Rows<T>, id: Id)
    requires Intact(r) && id in r.projects
    ensures var r' := Delete(r, Projects, id).value;
      && ChildEnvironments(r, id) == r.environments.Keys - r'.environments.Keys
      && ProjectSecrets(r, id) == r.secrets.Keys - r'.secrets.Keys
      && ProjectCounts(r, id) == (|r.environments.Keys - r'.environments.Keys|, |r.secrets.Keys - r'.secrets.Keys|)
  {
  }

  lemma EnvCountsAreWhatGoes<T>(r: Rows<T>, id: Id)
    requires Intact(r) && id in r.environments
    ensures var r' := Delete(r, Environments, id).value;
      && ChildFolders(r, id) == r.folders.Keys - r'.folders.Keys
      && EnvironmentSecrets(r, id) == r.secrets.Keys - r'.secrets.Keys
      && EnvCounts(r, id) == (|r.folders.Keys - r'.folders.Keys|, |r.secrets.Keys - r'.secrets.Keys|)
  {
  }

  lemma FolderCountsAreWhatGoes<T>(r: Rows<T>, id: Id)
    requires Intact(r) && id in r.folders
    ensures var r' := Delete(r, Folders, id).value;
      && FolderSecrets(r, id) == r.secrets.Keys - r'.secrets.Keys
      && FolderCounts(r, id) == |r.secrets.Keys - r'.secrets.Keys|
  {
    assert FolderSecrets(r, id) == r.secrets.Keys - Without(r, Folders, id).secrets.Keys;
  }
}
