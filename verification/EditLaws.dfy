/** What each write does to the rows, told by ids and links: which rows a creation needs
    and adds, and which ones a deletion takes along. */
module EditLaws {
  import opened Common
  import opened Tables

  // ---- what hangs below ----

  function EnvironmentsOf<T>(r: Rows<T>, projects: set<Id>): set<Id> {
    set e | e in r.environments && r.environments[e].project in projects
  }

  function FoldersOf<T>(r: Rows<T>, environments: set<Id>): set<Id> {
    set f | f in r.folders && r.folders[f].environment in environments
  }

  /** A secret hangs in a folder or in an environment. */
  function SecretsOf<T>(r: Rows<T>, environments: set<Id>, folders: set<Id>): set<Id> {
    set s | s in r.secrets &&
      ((r.secrets[s].folder.Some? && r.secrets[s].folder.value in folders) ||
       (r.secrets[s].environment.Some? && r.secrets[s].environment.value in environments))
  }

  function AttachmentsOf<T>(r: Rows<T>, secrets: set<Id>): set<Id> {
    set a | a in r.attachments && r.attachments[a].secret in secrets
  }

  /** The rows but for those of the given ids. */
  function Minus<T>(r: Rows<T>, projects: set<Id>, environments: set<Id>, folders: set<Id>, secrets: set<Id>,
      attachments: set<Id>)
    : Rows<T>
  {
    Rows(r.projects - projects, r.environments - environments, r.folders - folders, r.secrets - secrets,
      r.attachments - attachments, r.totp)
  }

  // ---- deletions ----

  /** An attachment goes alone. */
  lemma AttachmentGoes<T>(r: Rows<T>, id: Id)
    requires Intact(r)
    ensures Apply(r, DeleteAttachment(id)) ==
      if id in r.attachments then Ok(r.(attachments := r.attachments - {id})) else Err(NotFound)
  {
    if id in r.attachments {
      NothingLess(r);
      hide Without;
      WithoutIs(r, Attachments, id, {}, {}, {}, {}, {id});
    }
  }

  /** A secret goes with its attachments. */
  lemma SecretGoes<T>(r: Rows<T>, id: Id)
    requires Intact(r)
    ensures Apply(r, DeleteSecret(id)) ==
      if id in r.secrets then
        Ok(r.(secrets := r.secrets - {id}, attachments := r.attachments - AttachmentsOf(r, {id})))
      else Err(NotFound)
  {
    if id in r.secrets {
      NothingLess(r);
      hide Without;
      WithoutIs(r, Secrets, id, {}, {}, {}, {id}, AttachmentsOf(r, {id}));
    }
  }

  /** A folder goes with its secrets, and they with their attachments. */
  lemma FolderGoes<T>(r: Rows<T>, id: Id)
    requires Intact(r)
    ensures var secrets := SecretsOf(r, {}, {id});
      Apply(r, DeleteFolder(id)) ==
        if id in r.folders then
          Ok(r.(folders := r.folders - {id}, secrets := r.secrets - secrets,
                attachments := r.attachments - AttachmentsOf(r, secrets)))
        else Err(NotFound)
  {
    if id in r.folders {
      var secrets := SecretsOf(r, {}, {id});
      NothingLess(r);
      hide Without;
      WithoutIs(r, Folders, id, {}, {}, {id}, secrets, AttachmentsOf(r, secrets));
    }
  }

  /** An environment goes with its folders and everything in them and in itself. */
  lemma EnvironmentGoes<T>(r: Rows<T>, id: Id)
    requires Intact(r)
    ensures var folders := FoldersOf(r, {id}); var secrets := SecretsOf(r, {id}, folders);
      Apply(r, DeleteEnvironment(id)) ==
        if id in r.environments then
          Ok(r.(environments := r.environments - {id}, folders := r.folders - folders, secrets := r.secrets - secrets,
                attachments := r.attachments - AttachmentsOf(r, secrets)))
        else Err(NotFound)
  {
    if id in r.environments {
      var folders := FoldersOf(r, {id});
      var secrets := SecretsOf(r, {id}, folders);
      NothingLess(r);
      hide Without;
      WithoutIs(r, Environments, id, {}, {id}, folders, secrets, AttachmentsOf(r, secrets));
    }
  }

  /** A project goes with its environments and everything in them. */
  lemma ProjectGoes<T>(r: Rows<T>, id: Id)
    requires Intact(r)
    ensures var environments := EnvironmentsOf(r, {id});
      var folders := FoldersOf(r, environments); var secrets := SecretsOf(r, environments, folders);
      Apply(r, DeleteProject(id)) ==
        if id in r.projects then
          Ok(Rows(r.projects - {id}, r.environments - environments, r.folders - folders, r.secrets - secrets,
                  r.attachments - AttachmentsOf(r, secrets), r.totp))
        else Err(NotFound)
  {
    if id in r.projects {
      var environments := EnvironmentsOf(r, {id});
      var folders := FoldersOf(r, environments);
      var secrets := SecretsOf(r, environments, folders);
      NothingLess(r);
      hide Without;
      WithoutIs(r, Projects, id, {id}, environments, folders, secrets, AttachmentsOf(r, secrets));
    }
  }

  lemma NothingLess<T>(r: Rows<T>)
    ensures r.projects - {} == r.projects && r.environments - {} == r.environments && r.folders - {} == r.folders
    ensures r.secrets - {} == r.secrets
  {
  }

  lemma WithoutIs<T>(r: Rows<T>, t: Table, id: Id, projects: set<Id>, environments: set<Id>, folders: set<Id>,
        secrets: set<Id>, attachments: set<Id>)
    requires forall p | p in r.projects :: t.Projects? && p == id <==> p in projects
    requires forall e | e in r.environments :: EnvironmentUnder(r, t, id, e) <==> e in environments
    requires forall f | f in r.folders :: FolderUnder(r, t, id, f) <==> f in folders
    requires forall s | s in r.secrets :: SecretUnder(r, t, id, s) <==> s in secrets
    requires forall a | a in r.attachments :: AttachmentUnder(r, t, id, a) <==> a in attachments
    ensures Without(r, t, id) == Minus(r, projects, environments, folders, secrets, attachments)
  {
    hide EnvironmentUnder, FolderUnder, SecretUnder, AttachmentUnder;
    var x, y := Without(r, t, id), Minus(r, projects, environments, folders, secrets, attachments);
    assert x.projects == y.projects;
    assert x.environments == y.environments;
    assert x.folders == y.folders;
    assert x.secrets == y.secrets;
    assert x.attachments == y.attachments;
  }

  // ---- creations ----

  /** The rows but for one table. */
  ghost predicate OnlyProjects<T>(r: Rows<T>, r': Rows<T>) {
    r' == r.(projects := r'.projects)
  }

  ghost predicate OnlyEnvironments<T>(r: Rows<T>, r': Rows<T>) {
    r' == r.(environments := r'.environments)
  }

  ghost predicate OnlyFolders<T>(r: Rows<T>, r': Rows<T>) {
    r' == r.(folders := r'.folders)
  }

  ghost predicate OnlySecrets<T>(r: Rows<T>, r': Rows<T>) {
    r' == r.(secrets := r'.secrets)
  }

  ghost predicate OnlyAttachments<T>(r: Rows<T>, r': Rows<T>) {
    r' == r.(attachments := r'.attachments)
  }

  /** One row more; the others are as they were. */
  ghost predicate Adds<T>(before: map<Id, T>, after: map<Id, T>, id: Id) {
    && id !in before && after.Keys == before.Keys + {id}
    && forall k | k in before :: after[k] == before[k]
  }

  lemma ProjectComes<T>(r: Rows<T>, id: Id, name: T)
    ensures match Apply(r, NewProject(id, name))
      case Ok(r') => OnlyProjects(r, r') && Adds(r.projects, r'.projects, id) && r'.projects[id].name == name
      case Err(x) => x == Constraint && id in r.projects
  {
  }

  lemma EnvironmentComes<T>(r: Rows<T>, id: Id, project: Id, name: T)
    ensures match Apply(r, NewEnvironment(id, project, name))
      case Ok(r') =>
        && project in r.projects && OnlyEnvironments(r, r') && Adds(r.environments, r'.environments, id)
        && r'.environments[id].project == project && r'.environments[id].name == name
      case Err(x) => x == Constraint && (id in r.environments || project !in r.projects)
  {
  }

  lemma FolderComes<T>(r: Rows<T>, id: Id, environment: Id, name: T)
    ensures match Apply(r, NewFolder(id, environment, name))
      case Ok(r') =>
        && environment in r.environments && OnlyFolders(r, r') && Adds(r.folders, r'.folders, id)
        && r'.folders[id].environment == environment && r'.folders[id].name == name
      case Err(x) => x == Constraint && (id in r.folders || environment !in r.environments)
  {
  }

  /** Exactly one parent is named and exists; the empty name names none. */
  predicate OneParent<T>(r: Rows<T>, folder: string, environment: string) {
    || (folder != "" && environment == "" && folder in r.folders)
    || (folder == "" && environment != "" && environment in r.environments)
  }

  lemma SecretComes<T>(r: Rows<T>, id: Id, folder: string, environment: string, name: T, value: T, notes: T)
    ensures match Apply(r, NewSecret(id, folder, environment, name, value, notes))
      case Ok(r') =>
        && OneParent(r, folder, environment) && OnlySecrets(r, r') && Adds(r.secrets, r'.secrets, id)
        && r'.secrets[id].folder == (if folder == "" then None else Some(folder))
        && r'.secrets[id].environment == (if environment == "" then None else Some(environment))
        && r'.secrets[id].name == name && r'.secrets[id].value == value && r'.secrets[id].notes == notes
      case Err(x) => x == Constraint && (id in r.secrets || !OneParent(r, folder, environment))
  {
  }

  lemma AttachmentComes<T>(r: Rows<T>, id: Id, secret: Id, name: T, data: T, size: int)
    ensures match Apply(r, NewAttachment(id, secret, name, data, size))
      case Ok(r') =>
        && secret in r.secrets && OnlyAttachments(r, r') && Adds(r.attachments, r'.attachments, id)
        && r'.attachments[id].secret == secret && r'.attachments[id].size == size
        && r'.attachments[id].name == name && r'.attachments[id].data == data
      case Err(x) => x == Constraint && (id in r.attachments || secret !in r.secrets)
  {
  }

  // ---- changes ----

  /** A change needs its row, changes the given fields of it, and nothing else. */
  lemma NameChanges<T>(r: Rows<T>, id: Id, name: T)
    ensures Apply(r, RenameProject(id, name)) ==
      if id in r.projects then Ok(r.(projects := r.projects[id := r.projects[id].(name := name)])) else Err(NotFound)
    ensures Apply(r, RenameEnvironment(id, name)) ==
      if id in r.environments then Ok(r.(environments := r.environments[id := r.environments[id].(name := name)]))
      else Err(NotFound)
    ensures Apply(r, RenameFolder(id, name)) ==
      if id in r.folders then Ok(r.(folders := r.folders[id := r.folders[id].(name := name)])) else Err(NotFound)
  {
  }

  lemma SecretChanges<T>(r: Rows<T>, id: Id, name: T, value: T, notes: T)
    ensures match Apply(r, ChangeSecret(id, name, value, notes))
      case Ok(r') =>
        && id in r.secrets && OnlySecrets(r, r') && r'.secrets.Keys == r.secrets.Keys
        && (forall k | k in r.secrets && k != id :: r'.secrets[k] == r.secrets[k])
        && r'.secrets[id].folder == r.secrets[id].folder && r'.secrets[id].environment == r.secrets[id].environment
        && r'.secrets[id].name == name && r'.secrets[id].value == value && r'.secrets[id].notes == notes
      case Err(x) => x == NotFound && id !in r.secrets
  {
  }
}
