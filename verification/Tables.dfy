/** The relational content of the vault, over any type of cell: with cells of
    ciphertext it is what the database holds, with cells of plaintext it is what
    the user sees. Each statement of the store is one function here. */
module Tables {
  import opened Common
  import opened Aad

  type Id = string

  datatype Table = Projects | Environments | Folders | Secrets | Attachments | Vault
  datatype Column = NameEnc | ValueEnc | NotesEnc | DataEnc | TotpEnc

  /** One encrypted column of one row. */
  datatype Cell = Cell(table: Table, column: Column, id: Id)

  datatype ProjectRow<T> = ProjectRow(name: T)
  datatype EnvironmentRow<T> = EnvironmentRow(project: Id, name: T)
  datatype FolderRow<T> = FolderRow(environment: Id, name: T)
  datatype SecretRow<T> = SecretRow(folder: Option<Id>, environment: Option<Id>, name: T, value: T, notes: T)
  datatype AttachmentRow<T> = AttachmentRow(secret: Id, name: T, data: T, size: int)

  /** The five content tables and the `totp_enc` column of the vault row (None is NULL). */
  datatype Rows<T> = Rows(
    projects: map<Id, ProjectRow<T>>,
    environments: map<Id, EnvironmentRow<T>>,
    folders: map<Id, FolderRow<T>>,
    secrets: map<Id, SecretRow<T>>,
    attachments: map<Id, AttachmentRow<T>>,
    totp: Option<T>)

  function Empty<T>(): Rows<T> {
    Rows(map[], map[], map[], map[], map[], None)
  }

  // ---- cells and roles ----

  /** Every ciphertext column, by table, in the order in which they are read. */
  const ENCRYPTED_COLUMNS: seq<(Table, seq<Column>)> := [
    (Projects, [NameEnc]),
    (Environments, [NameEnc]),
    (Folders, [NameEnc]),
    (Secrets, [NameEnc, ValueEnc, NotesEnc]),
    (Attachments, [NameEnc, DataEnc])]

  function TableEntity(t: Table): string {
    match t
    case Projects => "project"
    case Environments => "environment"
    case Folders => "folder"
    case Secrets => "secret"
    case Attachments => "attachment"
    case Vault => "vault"
  }

  function ColumnField(c: Column): string {
    match c
    case NameEnc => "name"
    case ValueEnc => "value"
    case NotesEnc => "notes"
    case DataEnc => "data"
    case TotpEnc => "totp"
  }

  function RoleAad(c: Cell): string {
    FieldAad(TableEntity(c.table), c.id, ColumnField(c.column))
  }

  lemma RolesDistinct(c: Cell, d: Cell)
    requires RoleAad(c) == RoleAad(d)
    ensures c == d
  {
    FieldAadInjective(TableEntity(c.table), c.id, ColumnField(c.column), TableEntity(d.table), d.id,
      ColumnField(d.column));
  }

  /** The ids a table holds; the vault row is named "1" where its column is not NULL. */
  function Ids<T>(r: Rows<T>, t: Table): set<Id> {
    match t
    case Projects => r.projects.Keys
    case Environments => r.environments.Keys
    case Folders => r.folders.Keys
    case Secrets => r.secrets.Keys
    case Attachments => r.attachments.Keys
    case Vault => if r.totp.Some? then {"1"} else {}
  }

  predicate IsColumn(t: Table, c: Column) {
    match t
    case Secrets => c.NameEnc? || c.ValueEnc? || c.NotesEnc?
    case Attachments => c.NameEnc? || c.DataEnc?
    case Vault => c.TotpEnc?
    case _ => c.NameEnc?
  }

  predicate Has<T>(r: Rows<T>, c: Cell) {
    IsColumn(c.table, c.column) && c.id in Ids(r, c.table)
  }

  function Get<T>(r: Rows<T>, c: Cell): T
    requires Has(r, c)
  {
    match c.table
    case Projects => r.projects[c.id].name
    case Environments => r.environments[c.id].name
    case Folders => r.folders[c.id].name
    case Secrets =>
      var s := r.secrets[c.id];
      if c.column.NameEnc? then s.name else if c.column.ValueEnc? then s.value else s.notes
    case Attachments =>
      var a := r.attachments[c.id];
      if c.column.NameEnc? then a.name else a.data
    case Vault => r.totp.value
  }

  /** `UPDATE <table> SET <column>=? WHERE id=?` on an existing row. */
  function Put<T>(r: Rows<T>, c: Cell, v: T): Rows<T>
    requires Has(r, c)
  {
    match c.table
    case Projects => r.(projects := r.projects[c.id := ProjectRow(v)])
    case Environments => r.(environments := r.environments[c.id := r.environments[c.id].(name := v)])
    case Folders => r.(folders := r.folders[c.id := r.folders[c.id].(name := v)])
    case Secrets =>
      var s := r.secrets[c.id];
      r.(secrets := r.secrets[c.id :=
        if c.column.NameEnc? then s.(name := v) else if c.column.ValueEnc? then s.(value := v) else s.(notes := v)])
    case Attachments =>
      var a := r.attachments[c.id];
      r.(attachments := r.attachments[c.id := if c.column.NameEnc? then a.(name := v) else a.(data := v)])
    case Vault => r.(totp := Some(v))
  }

  /** Every cell replaced by what `f` makes of it. */
  function Recode<T, U>(r: Rows<T>, f: (Cell, T) -> U): Rows<U> {
    Rows(
      map id | id in r.projects :: ProjectRow(f(Cell(Projects, NameEnc, id), r.projects[id].name)),
      map id | id in r.environments ::
        EnvironmentRow(r.environments[id].project, f(Cell(Environments, NameEnc, id), r.environments[id].name)),
      map id | id in r.folders ::
        FolderRow(r.folders[id].environment, f(Cell(Folders, NameEnc, id), r.folders[id].name)),
      map id | id in r.secrets :: var s := r.secrets[id];
        SecretRow(s.folder, s.environment, f(Cell(Secrets, NameEnc, id), s.name),
          f(Cell(Secrets, ValueEnc, id), s.value), f(Cell(Secrets, NotesEnc, id), s.notes)),
      map id | id in r.attachments :: var a := r.attachments[id];
        AttachmentRow(a.secret, f(Cell(Attachments, NameEnc, id), a.name), f(Cell(Attachments, DataEnc, id), a.data),
          a.size),
      if r.totp.Some? then Some(f(Cell(Vault, TotpEnc, "1"), r.totp.value)) else None)
  }

  ghost predicate SameEnvironments<S, T>(a: map<Id, EnvironmentRow<S>>, b: map<Id, EnvironmentRow<T>>) {
    a.Keys == b.Keys && forall id | id in a :: a[id].project == b[id].project
  }

  ghost predicate SameFolders<S, T>(a: map<Id, FolderRow<S>>, b: map<Id, FolderRow<T>>) {
    a.Keys == b.Keys && forall id | id in a :: a[id].environment == b[id].environment
  }

  ghost predicate SameSecrets<S, T>(a: map<Id, SecretRow<S>>, b: map<Id, SecretRow<T>>) {
    a.Keys == b.Keys && forall id | id in a :: a[id].folder == b[id].folder && a[id].environment == b[id].environment
  }

  ghost predicate SameAttachments<S, T>(a: map<Id, AttachmentRow<S>>, b: map<Id, AttachmentRow<T>>) {
    a.Keys == b.Keys && forall id | id in a :: a[id].secret == b[id].secret && a[id].size == b[id].size
  }

  /** Same rows, same parent links, same sizes; only cells may differ. */
  ghost predicate SameShape<S, T>(a: Rows<S>, b: Rows<T>) {
    && a.projects.Keys == b.projects.Keys
    && SameEnvironments(a.environments, b.environments)
    && SameFolders(a.folders, b.folders)
    && SameSecrets(a.secrets, b.secrets)
    && SameAttachments(a.attachments, b.attachments)
    && a.totp.Some? == b.totp.Some?
  }

  /** Shape and cells are all there is. */
  lemma CellsDetermineRows<T>(a: Rows<T>, b: Rows<T>)
    requires SameShape(a, b)
    requires forall c | Has(a, c) :: Get(a, c) == Get(b, c)
    ensures a == b
  {
    forall id | id in a.projects ensures a.projects[id] == b.projects[id] {
      assert Has(a, Cell(Projects, NameEnc, id));
    }
    forall id | id in a.environments ensures a.environments[id] == b.environments[id] {
      assert Has(a, Cell(Environments, NameEnc, id));
    }
    forall id | id in a.folders ensures a.folders[id] == b.folders[id] {
      assert Has(a, Cell(Folders, NameEnc, id));
    }
    forall id | id in a.secrets ensures a.secrets[id] == b.secrets[id] {
      assert Has(a, Cell(Secrets, NameEnc, id)) && Has(a, Cell(Secrets, ValueEnc, id))
        && Has(a, Cell(Secrets, NotesEnc, id));
    }
    forall id | id in a.attachments ensures a.attachments[id] == b.attachments[id] {
      assert Has(a, Cell(Attachments, NameEnc, id)) && Has(a, Cell(Attachments, DataEnc, id));
    }
    if a.totp.Some? {
      assert Has(a, Cell(Vault, TotpEnc, "1"));
    }
    assert a.projects == b.projects && a.environments == b.environments && a.folders == b.folders;
    assert a.secrets == b.secrets && a.attachments == b.attachments && a.totp == b.totp;
  }

  lemma ShapeTransitive<S, T, U>(a: Rows<S>, b: Rows<T>, c: Rows<U>)
    requires SameShape(a, b) && SameShape(a, c)
    ensures SameShape(b, c)
  {
  }

  lemma ShapeHas<S, T>(a: Rows<S>, b: Rows<T>, c: Cell)
    requires SameShape(a, b)
    ensures Has(a, c) <==> Has(b, c)
  {
  }

  /** A write changes its own cell and nothing else. */
  lemma PutLaw<T>(r: Rows<T>, c: Cell, v: T, d: Cell)
    requires Has(r, c)
    ensures Has(Put(r, c, v), d) <==> Has(r, d)
    ensures Has(r, d) ==> Get(Put(r, c, v), d) == if d == c then v else Get(r, d)
  {
    match c.table
    case Projects =>
    case Environments =>
    case Folders =>
    case Secrets =>
    case Attachments =>
    case Vault =>
  }

  lemma PutKeepsShape<T>(r: Rows<T>, c: Cell, v: T)
    requires Has(r, c)
    ensures SameShape(r, Put(r, c, v))
  {
    if c.table.Secrets? || c.table.Attachments? {
      PutKeepsLeaves(r, c, v);
    } else {
      hide SameSecrets, SameAttachments;
      SameLeaves(r);
    }
  }

  lemma SameLeaves<T>(r: Rows<T>)
    ensures SameSecrets(r.secrets, r.secrets) && SameAttachments(r.attachments, r.attachments)
  {
  }

  lemma PutKeepsLeaves<T>(r: Rows<T>, c: Cell, v: T)
    requires Has(r, c) && (c.table.Secrets? || c.table.Attachments?)
    ensures SameShape(r, Put(r, c, v))
  {
  }

  lemma RecodeLaw<T, U>(r: Rows<T>, f: (Cell, T) -> U)
    ensures SameShape(r, Recode(r, f))
    ensures forall c | Has(r, c) :: Has(Recode(r, f), c) && Get(Recode(r, f), c) == f(c, Get(r, c))
  {
    RecodeShape(r, f);
    forall c | Has(r, c) ensures Has(Recode(r, f), c) && Get(Recode(r, f), c) == f(c, Get(r, c)) {
      RecodeCell(r, f, c);
    }
    hide SameShape, Has, Get, Recode;
  }

  lemma RecodeShape<T, U>(r: Rows<T>, f: (Cell, T) -> U)
    ensures SameShape(r, Recode(r, f))
  {
  }

  lemma RecodeCell<T, U>(r: Rows<T>, f: (Cell, T) -> U, c: Cell)
    requires Has(r, c)
    ensures Has(Recode(r, f), c) && Get(Recode(r, f), c) == f(c, Get(r, c))
  {
  }

  // ---- statements ----

  /** Foreign keys and the folder/environment exclusive-or check. */
  ghost predicate Intact<T>(r: Rows<T>) {
    && (forall id | id in r.environments :: r.environments[id].project in r.projects)
    && (forall id | id in r.folders :: r.folders[id].environment in r.environments)
    && (forall id | id in r.secrets :: ParentIntact(r, r.secrets[id].folder, r.secrets[id].environment))
    && (forall id | id in r.attachments :: r.attachments[id].secret in r.secrets)
  }

  predicate ParentIntact<T>(r: Rows<T>, folder: Option<Id>, environment: Option<Id>) {
    && folder.Some? != environment.Some?
    && (folder.Some? ==> folder.value in r.folders)
    && (environment.Some? ==> environment.value in r.environments)
  }

  /** The empty string stands for NULL. */
  function NullStr(s: string): Option<Id> {
    if s == "" then None else Some(s)
  }

  function InsertProject<T>(r: Rows<T>, id: Id, name: T): Result<Rows<T>> {
    if id in r.projects then Err(Constraint)
    else Ok(r.(projects := r.projects[id := ProjectRow(name)]))
  }

  function InsertEnvironment<T>(r: Rows<T>, id: Id, project: Id, name: T): Result<Rows<T>> {
    if id in r.environments || project !in r.projects then Err(Constraint)
    else Ok(r.(environments := r.environments[id := EnvironmentRow(project, name)]))
  }

  function InsertFolder<T>(r: Rows<T>, id: Id, environment: Id, name: T): Result<Rows<T>> {
    if id in r.folders || environment !in r.environments then Err(Constraint)
    else Ok(r.(folders := r.folders[id := FolderRow(environment, name)]))
  }

  function InsertSecret<T>(r: Rows<T>, id: Id, folder: string, environment: string, name: T, value: T, notes: T)
    : Result<Rows<T>>
  {
    var row := SecretRow(NullStr(folder), NullStr(environment), name, value, notes);
    if id in r.secrets || !ParentIntact(r, row.folder, row.environment) then Err(Constraint)
    else Ok(r.(secrets := r.secrets[id := row]))
  }

  function InsertAttachment<T>(r: Rows<T>, id: Id, secret: Id, name: T, data: T, size: int): Result<Rows<T>> {
    if id in r.attachments || secret !in r.secrets then Err(Constraint)
    else Ok(r.(attachments := r.attachments[id := AttachmentRow(secret, name, data, size)]))
  }

  /** Renaming a project, an environment or a folder. */
  function Rename<T>(r: Rows<T>, t: Table, id: Id, name: T): Result<Rows<T>>
    requires t.Projects? || t.Environments? || t.Folders?
  {
    var c := Cell(t, NameEnc, id);
    if Has(r, c) then Ok(Put(r, c, name)) else Err(NotFound)
  }

  function UpdateSecret<T>(r: Rows<T>, id: Id, name: T, value: T, notes: T): Result<Rows<T>> {
    if id !in r.secrets then Err(NotFound)
    else Ok(r.(secrets := r.secrets[id := r.secrets[id].(name := name, value := value, notes := notes)]))
  }

  /** The row a secret hangs under, resolved as the joins do: through its folder
      when the folder exists, else through its own environment column. */
  function SecretEnvironment<T>(r: Rows<T>, s: SecretRow<T>): Option<Id> {
    if s.folder.Some? && s.folder.value in r.folders then Some(r.folders[s.folder.value].environment) else s.environment
  }

  function SecretProject<T>(r: Rows<T>, s: SecretRow<T>): Option<Id> {
    var e := SecretEnvironment(r, s);
    if e.Some? && e.value in r.environments then Some(r.environments[e.value].project) else None
  }

  /** What is left when the row (t, id) goes: every row that has it as an ancestor goes too. */
  function Without<T>(r: Rows<T>, t: Table, id: Id): Rows<T> {
    Rows(
      map p | p in r.projects && !(t.Projects? && p == id) :: r.projects[p],
      EnvironmentsWithout(r, t, id), FoldersWithout(r, t, id), SecretsWithout(r, t, id), AttachmentsWithout(r, t, id),
      r.totp)
  }

  function EnvironmentsWithout<T>(r: Rows<T>, t: Table, id: Id): map<Id, EnvironmentRow<T>> {
    map e | e in r.environments && !EnvironmentUnder(r, t, id, e) :: r.environments[e]
  }

  function FoldersWithout<T>(r: Rows<T>, t: Table, id: Id): map<Id, FolderRow<T>> {
    map f | f in r.folders && !FolderUnder(r, t, id, f) :: r.folders[f]
  }

  function SecretsWithout<T>(r: Rows<T>, t: Table, id: Id): map<Id, SecretRow<T>> {
    map s | s in r.secrets && !SecretUnder(r, t, id, s) :: r.secrets[s]
  }

  function AttachmentsWithout<T>(r: Rows<T>, t: Table, id: Id): map<Id, AttachmentRow<T>> {
    map a | a in r.attachments && !AttachmentUnder(r, t, id, a) :: r.attachments[a]
  }

  predicate EnvironmentUnder<T>(r: Rows<T>, t: Table, id: Id, e: Id)
    requires e in r.environments
  {
    (t.Environments? && e == id) || (t.Projects? && r.environments[e].project == id)
  }

  predicate FolderUnder<T>(r: Rows<T>, t: Table, id: Id, f: Id)
    requires f in r.folders
  {
    var e := r.folders[f].environment;
    (t.Folders? && f == id) || (e in r.environments && EnvironmentUnder(r, t, id, e))
  }

  predicate SecretUnder<T>(r: Rows<T>, t: Table, id: Id, s: Id)
    requires s in r.secrets
  {
    var row := r.secrets[s];
    || (t.Secrets? && s == id)
    || (row.folder.Some? && row.folder.value in r.folders && FolderUnder(r, t, id, row.folder.value))
    || (row.environment.Some? && row.environment.value in r.environments
         && EnvironmentUnder(r, t, id, row.environment.value))
  }

  predicate AttachmentUnder<T>(r: Rows<T>, t: Table, id: Id, a: Id)
    requires a in r.attachments
  {
    var s := r.attachments[a].secret;
    (t.Attachments? && a == id) || (s in r.secrets && SecretUnder(r, t, id, s))
  }

  function Delete<T>(r: Rows<T>, t: Table, id: Id): Result<Rows<T>>
    requires !t.Vault?
  {
    if id in Ids(r, t) then Ok(Without(r, t, id)) else Err(NotFound)
  }

  /** The writes the user can ask for. */
  datatype Edit<T> =
    | NewProject(id: Id, name: T)
    | NewEnvironment(id: Id, project: Id, name: T)
    | NewFolder(id: Id, environment: Id, name: T)
    | NewSecret(id: Id, folder: string, parent: string, name: T, value: T, notes: T)
    | NewAttachment(id: Id, secret: Id, name: T, data: T, size: int)
    | RenameProject(id: Id, name: T)
    | RenameEnvironment(id: Id, name: T)
    | RenameFolder(id: Id, name: T)
    | ChangeSecret(id: Id, name: T, value: T, notes: T)
    | DeleteProject(id: Id)
    | DeleteEnvironment(id: Id)
    | DeleteFolder(id: Id)
    | DeleteSecret(id: Id)
    | DeleteAttachment(id: Id)

  function Apply<T>(r: Rows<T>, e: Edit<T>): Result<Rows<T>> {
    match e
    case NewProject(id, name) => InsertProject(r, id, name)
    case NewEnvironment(id, project, name) => InsertEnvironment(r, id, project, name)
    case NewFolder(id, environment, name) => InsertFolder(r, id, environment, name)
    case NewSecret(id, folder, parent, name, value, notes) => InsertSecret(r, id, folder, parent, name, value, notes)
    case NewAttachment(id, secret, name, data, size) => InsertAttachment(r, id, secret, name, data, size)
    case RenameProject(id, name) => Rename(r, Projects, id, name)
    case RenameEnvironment(id, name) => Rename(r, Environments, id, name)
    case RenameFolder(id, name) => Rename(r, Folders, id, name)
    case ChangeSecret(id, name, value, notes) => UpdateSecret(r, id, name, value, notes)
    case DeleteProject(id) => Delete(r, Projects, id)
    case DeleteEnvironment(id) => Delete(r, Environments, id)
    case DeleteFolder(id) => Delete(r, Folders, id)
    case DeleteSecret(id) => Delete(r, Secrets, id)
    case DeleteAttachment(id) => Delete(r, Attachments, id)
  }

  predicate IsDelete<T>(e: Edit<T>) {
    e.DeleteProject? || e.DeleteEnvironment? || e.DeleteFolder? || e.DeleteSecret? || e.DeleteAttachment?
  }

  /** The table a deletion starts from. */
  function DeletesFrom<T>(e: Edit<T>): Table
    requires IsDelete(e)
  {
    match e
    case DeleteProject(_) => Projects
    case DeleteEnvironment(_) => Environments
    case DeleteFolder(_) => Folders
    case DeleteSecret(_) => Secrets
    case DeleteAttachment(_) => Attachments
  }

  /** Every write keeps the foreign keys and the exclusive-or check. */
  lemma EditsKeepIntact<T>(r: Rows<T>, e: Edit<T>)
    requires Intact(r)
    ensures Apply(r, e).Ok? ==> Intact(Apply(r, e).value)
  {
    if IsDelete(e) {
      assert Apply(r, e) == Delete(r, DeletesFrom(e), e.id);
      WithoutKeepsIntact(r, DeletesFrom(e), e.id);
    } else {
      UpsertsKeepIntact(r, e);
    }
  }

  lemma UpsertsKeepIntact<T>(r: Rows<T>, e: Edit<T>)
    requires Intact(r) && !IsDelete(e)
    ensures Apply(r, e).Ok? ==> Intact(Apply(r, e).value)
  {
    if e.RenameProject? || e.RenameEnvironment? || e.RenameFolder? || e.ChangeSecret? {
      UpdateKeepsShape(r, e);
      if Apply(r, e).Ok? {
        ShapeIntact(r, Apply(r, e).value);
      }
    }
  }

  lemma ShapeIntact<S, T>(a: Rows<S>, b: Rows<T>)
    requires SameShape(a, b)
    ensures Intact(a) <==> Intact(b)
  {
  }

  lemma WithoutKeepsIntact<T>(r: Rows<T>, t: Table, id: Id)
    requires Intact(r)
    ensures Intact(Without(r, t, id))
  {
  }

  // ---- what a write writes ----

  /** The cells a write fills in. */
  function Written<T>(e: Edit<T>): map<Cell, T> {
    match e
    case NewProject(id, name) => map[Cell(Projects, NameEnc, id) := name]
    case NewEnvironment(id, _, name) => map[Cell(Environments, NameEnc, id) := name]
    case NewFolder(id, _, name) => map[Cell(Folders, NameEnc, id) := name]
    case NewSecret(id, _, _, name, value, notes) => SecretCells(id, name, value, notes)
    case NewAttachment(id, _, name, data, _) =>
      map[Cell(Attachments, NameEnc, id) := name, Cell(Attachments, DataEnc, id) := data]
    case RenameProject(id, name) => map[Cell(Projects, NameEnc, id) := name]
    case RenameEnvironment(id, name) => map[Cell(Environments, NameEnc, id) := name]
    case RenameFolder(id, name) => map[Cell(Folders, NameEnc, id) := name]
    case ChangeSecret(id, name, value, notes) => SecretCells(id, name, value, notes)
    case _ => map[]
  }

  function SecretCells<T>(id: Id, name: T, value: T, notes: T): map<Cell, T> {
    map[Cell(Secrets, NameEnc, id) := name, Cell(Secrets, ValueEnc, id) := value, Cell(Secrets, NotesEnc, id) := notes]
  }

  /** The same write with every cell converted. */
  function MapEdit<S, T>(e: Edit<S>, f: (Cell, S) -> T): Edit<T> {
    match e
    case NewProject(id, name) => NewProject(id, f(Cell(Projects, NameEnc, id), name))
    case NewEnvironment(id, project, name) => NewEnvironment(id, project, f(Cell(Environments, NameEnc, id), name))
    case NewFolder(id, environment, name) => NewFolder(id, environment, f(Cell(Folders, NameEnc, id), name))
    case NewSecret(id, folder, parent, name, value, notes) =>
      NewSecret(id, folder, parent,
        f(Cell(Secrets, NameEnc, id), name), f(Cell(Secrets, ValueEnc, id), value),
        f(Cell(Secrets, NotesEnc, id), notes))
    case NewAttachment(id, secret, name, data, size) =>
      NewAttachment(id, secret, f(Cell(Attachments, NameEnc, id), name), f(Cell(Attachments, DataEnc, id), data), size)
    case RenameProject(id, name) => RenameProject(id, f(Cell(Projects, NameEnc, id), name))
    case RenameEnvironment(id, name) => RenameEnvironment(id, f(Cell(Environments, NameEnc, id), name))
    case RenameFolder(id, name) => RenameFolder(id, f(Cell(Folders, NameEnc, id), name))
    case ChangeSecret(id, name, value, notes) =>
      ChangeSecret(id,
        f(Cell(Secrets, NameEnc, id), name), f(Cell(Secrets, ValueEnc, id), value),
        f(Cell(Secrets, NotesEnc, id), notes))
    case DeleteProject(id) => DeleteProject(id)
    case DeleteEnvironment(id) => DeleteEnvironment(id)
    case DeleteFolder(id) => DeleteFolder(id)
    case DeleteSecret(id) => DeleteSecret(id)
    case DeleteAttachment(id) => DeleteAttachment(id)
  }

  lemma MapEditWrites<S, T>(e: Edit<S>, f: (Cell, S) -> T, c: Cell)
    ensures c in Written(MapEdit(e, f)) <==> c in Written(e)
    ensures c in Written(e) ==> Written(MapEdit(e, f))[c] == f(c, Written(e)[c])
  {
  }

  /** A write fills in exactly its own cells; every other cell that remains is as
      it was, and only a deletion takes cells away. */
  lemma EditCell<T>(r: Rows<T>, e: Edit<T>, c: Cell)
    requires Apply(r, e).Ok?
    ensures var r' := Apply(r, e).value;
      && (Has(r', c) && c in Written(e) ==> Get(r', c) == Written(e)[c])
      && (Has(r', c) && c !in Written(e) ==> Has(r, c) && Get(r', c) == Get(r, c))
      && (!IsDelete(e) && (Has(r, c) || c in Written(e)) ==> Has(r', c))
  {
    if IsDelete(e) {
      assert Apply(r, e) == Delete(r, DeletesFrom(e), e.id);
      if Has(Apply(r, e).value, c) {
        WithoutCell(r, DeletesFrom(e), e.id, c);
      }
    } else {
      UpsertCell(r, e, c);
    }
  }

  lemma UpsertCell<T>(r: Rows<T>, e: Edit<T>, c: Cell)
    requires Apply(r, e).Ok? && !IsDelete(e)
    ensures var r' := Apply(r, e).value;
      && (Has(r', c) <==> Has(r, c) || c in Written(e))
      && (Has(r', c) ==> Get(r', c) == if c in Written(e) then Written(e)[c] else Get(r, c))
  {
    if e.RenameProject? || e.RenameEnvironment? || e.RenameFolder? {
      RenameCell(r, e, c);
    } else if e.NewSecret? || e.ChangeSecret? {
      SecretCell(r, e, c);
    } else {
      NewCell(r, e, c);
    }
  }

  lemma RenameCell<T>(r: Rows<T>, e: Edit<T>, c: Cell)
    requires Apply(r, e).Ok? && (e.RenameProject? || e.RenameEnvironment? || e.RenameFolder?)
    ensures var r' := Apply(r, e).value;
      && (Has(r', c) <==> Has(r, c) || c in Written(e))
      && (Has(r', c) ==> Get(r', c) == if c in Written(e) then Written(e)[c] else Get(r, c))
  {
    var t := if e.RenameProject? then Projects else if e.RenameEnvironment? then Environments else Folders;
    PutLaw(r, Cell(t, NameEnc, e.id), e.name, c);
  }

  lemma SecretCell<T>(r: Rows<T>, e: Edit<T>, c: Cell)
    requires Apply(r, e).Ok? && (e.NewSecret? || e.ChangeSecret?)
    ensures var r' := Apply(r, e).value;
      && (Has(r', c) <==> Has(r, c) || c in Written(e))
      && (Has(r', c) ==> Get(r', c) == if c in Written(e) then Written(e)[c] else Get(r, c))
  {
  }

  lemma NewCell<T>(r: Rows<T>, e: Edit<T>, c: Cell)
    requires Apply(r, e).Ok? && (e.NewProject? || e.NewEnvironment? || e.NewFolder? || e.NewAttachment?)
    ensures var r' := Apply(r, e).value;
      && (Has(r', c) <==> Has(r, c) || c in Written(e))
      && (Has(r', c) ==> Get(r', c) == if c in Written(e) then Written(e)[c] else Get(r, c))
  {
  }

  /** Whether a write succeeds, and which rows it adds or removes, depends on the rows alone. */
  lemma EditShape<S, T>(a: Rows<S>, b: Rows<T>, e: Edit<S>, f: (Cell, S) -> T)
    requires SameShape(a, b)
    ensures match (Apply(a, e), Apply(b, MapEdit(e, f)))
      case (Ok(a'), Ok(b')) => SameShape(a', b')
      case (Err(x), Err(y)) => x == y
      case _ => false
  {
    if IsDelete(e) {
      assert Apply(a, e) == Delete(a, DeletesFrom(e), e.id);
      assert Apply(b, MapEdit(e, f)) == Delete(b, DeletesFrom(e), e.id);
      WithoutShape(a, b, DeletesFrom(e), e.id);
    } else {
      UpsertShape(a, b, e, f);
    }
  }

  lemma UpsertShape<S, T>(a: Rows<S>, b: Rows<T>, e: Edit<S>, f: (Cell, S) -> T)
    requires SameShape(a, b) && !IsDelete(e)
    ensures match (Apply(a, e), Apply(b, MapEdit(e, f)))
      case (Ok(a'), Ok(b')) => SameShape(a', b')
      case (Err(x), Err(y)) => x == y
      case _ => false
  {
    if e.NewProject? || e.NewEnvironment? || e.NewFolder? {
      NewParentShape(a, b, e, f);
    } else if e.NewSecret? || e.NewAttachment? {
      NewLeafShape(a, b, e, f);
    } else {
      UpdateKeepsShape(a, e);
      UpdateKeepsShape(b, MapEdit(e, f));
    }
  }

  lemma NewParentShape<S, T>(a: Rows<S>, b: Rows<T>, e: Edit<S>, f: (Cell, S) -> T)
    requires SameShape(a, b) && (e.NewProject? || e.NewEnvironment? || e.NewFolder?)
    ensures match (Apply(a, e), Apply(b, MapEdit(e, f)))
      case (Ok(a'), Ok(b')) => SameShape(a', b')
      case (Err(x), Err(y)) => x == y
      case _ => false
  {
    hide SameSecrets, SameAttachments;
    if e.NewProject? {
      hide SameEnvironments, SameFolders;
    } else if e.NewEnvironment? {
      hide SameFolders;
    } else {
      hide SameEnvironments;
    }
  }

  lemma NewLeafShape<S, T>(a: Rows<S>, b: Rows<T>, e: Edit<S>, f: (Cell, S) -> T)
    requires SameShape(a, b) && (e.NewSecret? || e.NewAttachment?)
    ensures match (Apply(a, e), Apply(b, MapEdit(e, f)))
      case (Ok(a'), Ok(b')) => SameShape(a', b')
      case (Err(x), Err(y)) => x == y
      case _ => false
  {
    if e.NewSecret? {
      hide SameAttachments;
    } else {
      hide SameEnvironments, SameFolders;
    }
  }

  lemma UpdateKeepsShape<T>(r: Rows<T>, e: Edit<T>)
    requires e.RenameProject? || e.RenameEnvironment? || e.RenameFolder? || e.ChangeSecret?
    ensures Apply(r, e).Ok? ==> SameShape(r, Apply(r, e).value)
    ensures Apply(r, e).Err? ==> Apply(r, e).error == NotFound
    ensures Apply(r, e).Ok? <==>
      e.id in (if e.RenameProject? then r.projects.Keys else if e.RenameEnvironment? then r.environments.Keys
               else if e.RenameFolder? then r.folders.Keys else r.secrets.Keys)
  {
  }

  lemma WithoutShape<S, T>(a: Rows<S>, b: Rows<T>, t: Table, id: Id)
    requires SameShape(a, b)
    ensures SameShape(Without(a, t, id), Without(b, t, id))
  {
    UnderAgrees(a, b, t, id);
    WithoutParents(a, b, t, id);
    WithoutLeaves(a, b, t, id);
    hide EnvironmentsWithout, FoldersWithout, SecretsWithout, AttachmentsWithout;
    hide SameEnvironments, SameFolders, SameSecrets, SameAttachments;
  }

  lemma WithoutParents<S, T>(a: Rows<S>, b: Rows<T>, t: Table, id: Id)
    requires SameEnvironments(a.environments, b.environments) && SameFolders(a.folders, b.folders)
    requires forall e | e in a.environments :: EnvironmentUnder(a, t, id, e) == EnvironmentUnder(b, t, id, e)
    requires forall f | f in a.folders :: FolderUnder(a, t, id, f) == FolderUnder(b, t, id, f)
    ensures SameEnvironments(EnvironmentsWithout(a, t, id), EnvironmentsWithout(b, t, id))
    ensures SameFolders(FoldersWithout(a, t, id), FoldersWithout(b, t, id))
  {
    hide EnvironmentUnder, FolderUnder;
  }

  lemma WithoutLeaves<S, T>(a: Rows<S>, b: Rows<T>, t: Table, id: Id)
    requires SameSecrets(a.secrets, b.secrets) && SameAttachments(a.attachments, b.attachments)
    requires forall s | s in a.secrets :: SecretUnder(a, t, id, s) == SecretUnder(b, t, id, s)
    requires forall x | x in a.attachments :: AttachmentUnder(a, t, id, x) == AttachmentUnder(b, t, id, x)
    ensures SameSecrets(SecretsWithout(a, t, id), SecretsWithout(b, t, id))
    ensures SameAttachments(AttachmentsWithout(a, t, id), AttachmentsWithout(b, t, id))
  {
    hide SecretUnder, AttachmentUnder;
  }

  lemma WithoutCell<T>(r: Rows<T>, t: Table, id: Id, c: Cell)
    requires Has(Without(r, t, id), c)
    ensures Has(r, c) && Get(Without(r, t, id), c) == Get(r, c)
  {
    hide EnvironmentUnder, FolderUnder, SecretUnder, AttachmentUnder;
  }

  lemma UnderAgrees<S, T>(a: Rows<S>, b: Rows<T>, t: Table, id: Id)
    requires SameShape(a, b)
    ensures forall e | e in a.environments :: EnvironmentUnder(a, t, id, e) == EnvironmentUnder(b, t, id, e)
    ensures forall f | f in a.folders :: FolderUnder(a, t, id, f) == FolderUnder(b, t, id, f)
    ensures forall s | s in a.secrets :: SecretUnder(a, t, id, s) == SecretUnder(b, t, id, s)
    ensures forall x | x in a.attachments :: AttachmentUnder(a, t, id, x) == AttachmentUnder(b, t, id, x)
  {
  }
}
