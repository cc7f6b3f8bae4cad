/** Searching: which secrets a query finds. */
module Search {
  import opened Common
  import opened Aead
  import opened Paths
  import opened Tables
  import opened VaultSpec
  import EnvFile
  import Store
  import Vault

  const MAX_HITS := 100

  // ---- the query ----

  function Text(b: Bytes): string {
    seq(|b|, i requires 0 <= i < |b| => b[i] as char)
  }

  function Lower(c: char): char {
    if 'A' <= c <= 'Z' then (c as int + 32) as char else c
  }

  function ToLower(s: string): string {
    seq(|s|, i requires 0 <= i < |s| => Lower(s[i]))
  }

  function Needle(query: Bytes): string {
    ToLower(EnvFile.TrimSpace(Text(query)))
  }

  predicate Contains(haystack: Bytes, needle: string) {
    var h := ToLower(Text(haystack));
    exists i | 0 <= i <= |h| :: needle <= h[i..]
  }

  /** The same character, or an ASCII letter and its other case. */
  predicate SameLetter(a: char, b: char) {
    || a == b
    || ('A' <= a <= 'Z' && b as int == a as int + 32)
    || ('A' <= b <= 'Z' && a as int == b as int + 32)
  }

  predicate SameText(s: string, t: string) {
    |s| == |t| && forall i | 0 <= i < |s| :: SameLetter(s[i], t[i])
  }

  /** The stretch of `s` from `i` on is `t`, but for the case of letters. */
  predicate StandsAt(s: string, t: string, i: int) {
    0 <= i <= |s| - |t| && SameText(s[i..i + |t|], t)
  }

  /** Some stretch of the text is the trimmed query, but for the case of letters. */
  ghost predicate OccursIn(text: Bytes, query: Bytes) {
    exists i :: StandsAt(Text(text), EnvFile.TrimSpace(Text(query)), i)
  }

  lemma LowerSame(s: string, t: string)
    ensures ToLower(s) == ToLower(t) <==> SameText(s, t)
  {
    forall a: char, b: char ensures Lower(a) == Lower(b) <==> SameLetter(a, b) {
    }
    if ToLower(s) == ToLower(t) {
      forall i | 0 <= i < |s| ensures SameLetter(s[i], t[i]) {
        assert ToLower(s)[i] == ToLower(t)[i];
      }
    }
  }

  /** Queries that differ in the case of letters only look for the same. */
  lemma CaseMakesNoDifference(query: Bytes, query': Bytes)
    requires SameText(Text(query), Text(query'))
    ensures Needle(query) == Needle(query')
  {
    LowerSame(Text(query), Text(query'));
    TrimmedLower(Text(query));
    TrimmedLower(Text(query'));
  }

  /** What is looked for is found wherever it stands, in either case, and nowhere else. */
  lemma ContainsExactly(text: Bytes, query: Bytes)
    ensures Contains(text, Needle(query)) <==> OccursIn(text, query)
  {
    var h, t := Text(text), EnvFile.TrimSpace(Text(query));
    hide EnvFile.TrimSpace, Lower, SameText;
    if i :| 0 <= i <= |ToLower(h)| && Needle(query) <= ToLower(h)[i..] {
      StretchLower(h, t, i);
      assert StandsAt(h, t, i);
    }
    if i :| StandsAt(h, t, i) {
      StretchLower(h, t, i);
      assert Needle(query) <= ToLower(h)[i..];
    }
  }

  lemma StretchLower(s: string, t: string, i: int)
    requires 0 <= i <= |s|
    ensures ToLower(t) <= ToLower(s)[i..] <==> StandsAt(s, t, i)
  {
    if i + |t| <= |s| {
      LowerSame(s[i..i + |t|], t);
      assert ToLower(s[i..i + |t|]) == ToLower(s)[i..][..|t|];
    }
    hide Lower, SameText;
  }

  lemma TrimmedLower(s: string)
    ensures ToLower(EnvFile.TrimSpace(s)) == EnvFile.TrimSpace(ToLower(s))
  {
    LeftLower(s);
    RightLower(EnvFile.TrimLeft(s));
  }

  lemma {:induction false} LeftLower(s: string)
    ensures ToLower(EnvFile.TrimLeft(s)) == EnvFile.TrimLeft(ToLower(s))
  {
    if s != "" && EnvFile.IsSpace(s[0]) {
      LeftLower(s[1..]);
      assert ToLower(s)[1..] == ToLower(s[1..]);
    }
  }

  lemma {:induction false} RightLower(s: string)
    ensures ToLower(EnvFile.TrimRight(s)) == EnvFile.TrimRight(ToLower(s))
  {
    if s != "" && EnvFile.IsSpace(s[|s| - 1]) {
      var n := |s| - 1;
      RightLower(s[..n]);
      assert ToLower(s)[..n] == ToLower(s[..n]);
    }
  }

  // ---- what is found ----

  /** A hit shows the names on the path of a secret, never its value. */
  datatype Hit = Hit(path: Path, name: Bytes, folderName: Bytes, environmentName: Bytes, projectName: Bytes)

  /** A folder that is not there, or whose name column is empty, counts as unnamed. */
  predicate FolderNamed(st: State, p: Path) {
    p.folder.Some? && p.folder.value in st.rows.folders && Size(st.rows.folders[p.folder.value].name) > 0
  }

  /** The hit is what the secret of that path reads as. */
  predicate Shows(st: State, dek: Bytes, h: Hit) {
    && Read(st, dek, Cell(Secrets, NameEnc, h.path.secret)) == Ok(h.name)
    && Read(st, dek, Cell(Environments, NameEnc, h.path.environment)) == Ok(h.environmentName)
    && Read(st, dek, Cell(Projects, NameEnc, h.path.project)) == Ok(h.projectName)
    && (if FolderNamed(st, h.path) then Read(st, dek, Cell(Folders, NameEnc, h.path.folder.value)) == Ok(h.folderName)
        else h.folderName == [])
  }

  /** The query occurs in the name, in the notes or in a name above. */
  predicate Matches(st: State, dek: Bytes, needle: string, h: Hit) {
    var notes := Read(st, dek, Cell(Secrets, NotesEnc, h.path.secret));
    || Contains(h.name, needle) || (notes.Ok? && Contains(notes.value, needle))
    || Contains(h.folderName, needle) || Contains(h.environmentName, needle) || Contains(h.projectName, needle)
  }

  predicate Found(st: State, dek: Bytes, needle: string, h: Hit) {
    && h.path.secret in st.rows.secrets
    && Joined(st.rows, h.path.secret) == Some(h.path)
    && Shows(st, dek, h)
    && Matches(st, dek, needle, h)
  }

  /** What a cell of the secret's path reads as holds the query. */
  ghost predicate CellHolds(st: State, dek: Bytes, c: Cell, query: Bytes) {
    Read(st, dek, c).Ok? && OccursIn(Read(st, dek, c).value, query)
  }

  /** A row that opens is hit exactly when the query occurs in the name or the notes of the
      secret, in the name of its folder, if it has a named one, of its environment or of
      its project. */
  lemma FoundExactly(st: State, dek: Bytes, query: Bytes, h: Hit)
    requires IsRow(st, h.path.secret, h.path) && Shows(st, dek, h) && RowOpens(st, dek, h.path) && Needle(query) != ""
    ensures Found(st, dek, Needle(query), h) <==>
      || CellHolds(st, dek, Cell(Secrets, NameEnc, h.path.secret), query)
      || CellHolds(st, dek, Cell(Secrets, NotesEnc, h.path.secret), query)
      || (h.path.folder.Some? && h.path.folder.value in st.rows.folders
          && Size(st.rows.folders[h.path.folder.value].name) > 0
          && CellHolds(st, dek, Cell(Folders, NameEnc, h.path.folder.value), query))
      || CellHolds(st, dek, Cell(Environments, NameEnc, h.path.environment), query)
      || CellHolds(st, dek, Cell(Projects, NameEnc, h.path.project), query)
  {
    var notes := Read(st, dek, Cell(Secrets, NotesEnc, h.path.secret));
    assert Cell(Secrets, NotesEnc, h.path.secret) in CellsOf(st, h.path);
    assert !Contains([], Needle(query));
    ContainsExactly(h.name, query);
    ContainsExactly(notes.value, query);
    ContainsExactly(h.folderName, query);
    ContainsExactly(h.environmentName, query);
    ContainsExactly(h.projectName, query);
    hide Contains, OccursIn, Needle, Read;
  }

  /** The cells a search opens for a row of the join. */
  function CellsOf(st: State, p: Path): set<Cell> {
    {Cell(Secrets, NameEnc, p.secret), Cell(Secrets, NotesEnc, p.secret), Cell(Projects, NameEnc, p.project),
     Cell(Environments, NameEnc, p.environment)}
    + if FolderNamed(st, p) then {Cell(Folders, NameEnc, p.folder.value)} else {}
  }

  /** A folder without a name does not count: nothing is opened for it. */
  lemma UnnamedIsPassedOver(st: State, p: Path)
    requires p.folder.Some? && p.folder.value in st.rows.folders && Size(st.rows.folders[p.folder.value].name) == 0
    ensures forall c | c in CellsOf(st, p) :: !c.table.Folders?
  {
  }

  predicate RowOpens(st: State, dek: Bytes, p: Path) {
    forall c | c in CellsOf(st, p) :: Read(st, dek, c).Ok?
  }

  /** A stored cell of the row does not open. */
  predicate RowFails(st: State, dek: Bytes, p: Path, e: Error) {
    exists c :: c in CellsOf(st, p) && Has(st.rows, c) && Read(st, dek, c) == Err(e)
  }

  /** The row of the join that a secret stands in, if any. */
  predicate IsRow(st: State, id: Id, p: Path) {
    id in st.rows.secrets && Joined(st.rows, id) == Some(p)
  }

  function PathOf(w: Store.SecretWithPath): Path {
    Path(w.id, w.folder, w.environment, w.project)
  }

  /** One row of the join as a hit, and whether it is one. */
  method OpenRow(svc: Vault.Service, dek: Bytes, w: Store.SecretWithPath, needle: string)
    returns (r: Result<(Hit, bool)>)
    requires Store.Describes(svc.db.Rows(), w)
    ensures r.Ok? ==> r.value.0.path == PathOf(w) && Shows(svc.db.State(), dek, r.value.0)
    ensures r.Ok? ==> r.value.1 == Matches(svc.db.State(), dek, needle, r.value.0)
    ensures r.Ok? ==> RowOpens(svc.db.State(), dek, r.value.0.path)
    ensures r.Err? ==> RowFails(svc.db.State(), dek, PathOf(w), r.error)
  {
    hide Contains;
    ghost var st, p := svc.db.State(), PathOf(w);
    var name := svc.OpenField(dek, w.nameEnc, "secret", w.id, "name");
    if name.Err? {
      assert Cell(Secrets, NameEnc, w.id) in CellsOf(st, p) && Has(st.rows, Cell(Secrets, NameEnc, w.id));
      return Err(name.error);
    }
    var notes := svc.OpenField(dek, w.notesEnc, "secret", w.id, "notes");
    if notes.Err? {
      assert Cell(Secrets, NotesEnc, w.id) in CellsOf(st, p) && Has(st.rows, Cell(Secrets, NotesEnc, w.id));
      return Err(notes.error);
    }
    var project := svc.OpenField(dek, w.projectName, "project", w.project, "name");
    if project.Err? {
      assert Cell(Projects, NameEnc, w.project) in CellsOf(st, p) && Has(st.rows, Cell(Projects, NameEnc, w.project));
      return Err(project.error);
    }
    var environment := svc.OpenField(dek, w.environmentName, "environment", w.environment, "name");
    if environment.Err? {
      assert Cell(Environments, NameEnc, w.environment) in CellsOf(st, p)
        && Has(st.rows, Cell(Environments, NameEnc, w.environment));
      return Err(environment.error);
    }
    var folder: Bytes := [];
    if w.folderName.Some? && Size(w.folderName.value) > 0 {
      var f := svc.OpenField(dek, w.folderName.value, "folder", w.folder.value, "name");
      if f.Err? {
        assert Cell(Folders, NameEnc, w.folder.value) in CellsOf(st, p)
          && Has(st.rows, Cell(Folders, NameEnc, w.folder.value));
        return Err(f.error);
      }
      folder := f.value;
    }
    var hit := Hit(PathOf(w), name.value, folder, environment.value, project.value);
    var matches :=
      || Contains(hit.name, needle) || Contains(notes.value, needle)
      || Contains(hit.folderName, needle) || Contains(hit.environmentName, needle) || Contains(hit.projectName, needle);
    return Ok((hit, matches));
  }

  ghost function IdsOf(rows: seq<Store.SecretWithPath>, n: nat): set<Id>
    requires n <= |rows|
  {
    set j | 0 <= j < n :: rows[j].id
  }

  ghost predicate RowsOpen(st: State, dek: Bytes, rows: seq<Store.SecretWithPath>, n: nat)
    requires n <= |rows|
  {
    forall k | 0 <= k < n :: RowOpens(st, dek, PathOf(rows[k]))
  }

  lemma NextRow(st: State, dek: Bytes, rows: seq<Store.SecretWithPath>, n: nat)
    requires n < |rows| && RowOpens(st, dek, PathOf(rows[n])) && RowsOpen(st, dek, rows, n)
    ensures RowsOpen(st, dek, rows, n + 1) && IdsOf(rows, n + 1) == IdsOf(rows, n) + {rows[n].id}
  {
    hide RowOpens;
  }

  lemma NotSeen(rows: seq<Store.SecretWithPath>, n: nat)
    requires n < |rows| && forall i, j | 0 <= i < j < |rows| :: rows[i].id != rows[j].id
    ensures rows[n].id !in IdsOf(rows, n)
  {
  }

  /** The hits among the rows, up to the cut. */
  method SearchRows(svc: Vault.Service, dek: Bytes, needle: string, rows: seq<Store.SecretWithPath>)
    returns (r: Result<seq<Hit>>, ghost seen: set<Id>)
    requires forall k | 0 <= k < |rows| :: Store.Describes(svc.db.Rows(), rows[k])
    requires forall i, j | 0 <= i < j < |rows| :: rows[i].id != rows[j].id
    ensures r.Ok? ==> |r.value| <= MAX_HITS && AreHits(svc.db.State(), dek, needle, seen, r.value)
    ensures r.Ok? && |r.value| < MAX_HITS ==> seen == IdsOf(rows, |rows|)
    ensures r.Ok? && |r.value| < MAX_HITS ==> RowsOpen(svc.db.State(), dek, rows, |rows|)
    ensures r.Err? ==> exists k :: 0 <= k < |rows| && RowFails(svc.db.State(), dek, PathOf(rows[k]), r.error)
  {
    ghost var st := svc.db.State();
    assert AreHits(st, dek, needle, {}, []) && RowsOpen(st, dek, rows, 0) && IdsOf(rows, 0) == {};
    hide AreHits, Shows, Matches, RowOpens, RowFails, RowsOpen, IdsOf, PathOf, Store.Describes;
    var hits: seq<Hit> := [];
    seen := {};
    for i := 0 to |rows|
      invariant |hits| < MAX_HITS && seen == IdsOf(rows, i) && AreHits(st, dek, needle, seen, hits)
      invariant RowsOpen(st, dek, rows, i)
    {
      var row := OpenRow(svc, dek, rows[i], needle);
      if row.Err? {
        assert RowFails(st, dek, PathOf(rows[i]), row.error);
        return Err(row.error), seen;
      }
      var (hit, matches) := row.value;
      NotSeen(rows, i);
      NextRow(st, dek, rows, i);
      OneMoreRow(st, dek, needle, seen, hits, rows[i], hit);
      seen := seen + {rows[i].id};
      if matches {
        hits := hits + [hit];
        if |hits| >= MAX_HITS {
          break;
        }
      }
    }
    return Ok(hits), seen;
  }

  /** Every hit is a match, no secret is hit twice, and below the cut every match is hit
      and every row of the join opens; the search fails only with the error of a stored
      name or note of a joined row. */
  method Search(svc: Vault.Service, dek: Bytes, query: Bytes) returns (r: Result<seq<Hit>>)
    ensures Needle(query) == "" ==> r == Ok([])
    ensures r.Ok? ==>
      && |r.value| <= MAX_HITS
      && (forall k | 0 <= k < |r.value| :: Found(svc.db.State(), dek, Needle(query), r.value[k]))
      && (forall i, j | 0 <= i < j < |r.value| :: r.value[i].path.secret != r.value[j].path.secret)
    ensures r.Ok? && Needle(query) != "" && |r.value| < MAX_HITS ==>
      forall h | Found(svc.db.State(), dek, Needle(query), h) :: h in r.value
    ensures r.Ok? && Needle(query) != "" && |r.value| < MAX_HITS ==>
      forall id, p | IsRow(svc.db.State(), id, p) :: RowOpens(svc.db.State(), dek, p)
    ensures r.Err? ==>
      Needle(query) != "" && exists id, p :: IsRow(svc.db.State(), id, p) && RowFails(svc.db.State(), dek, p, r.error)
  {
    hide Needle, Shows, Matches, RowOpens, RowFails;
    if Needle(query) == "" {
      return Ok([]);
    }
    var rows := svc.db.AllSecretsWithPath();
    ghost var seen;
    r, seen := SearchRows(svc, dek, Needle(query), rows);
    assert forall h | Found(svc.db.State(), dek, Needle(query), h) :: h.path.secret in IdsOf(rows, |rows|);
    assert forall k | 0 <= k < |rows| :: IsRow(svc.db.State(), rows[k].id, PathOf(rows[k]));
    assert forall id, p | IsRow(svc.db.State(), id, p) :: id in IdsOf(rows, |rows|);
  }

  /** The hits among the secrets `seen`. */
  ghost predicate AreHits(st: State, dek: Bytes, needle: string, seen: set<Id>, hits: seq<Hit>) {
    && (forall k | 0 <= k < |hits| :: Found(st, dek, needle, hits[k]) && hits[k].path.secret in seen)
    && (forall i, j | 0 <= i < j < |hits| :: hits[i].path.secret != hits[j].path.secret)
    && (forall h | Found(st, dek, needle, h) && h.path.secret in seen :: h in hits)
  }

  /** A secret reads in one way only. */
  lemma HitIsUnique(st: State, dek: Bytes, needle: string, w: Store.SecretWithPath, hit: Hit)
    requires Store.Describes(st.rows, w) && hit.path == PathOf(w) && Shows(st, dek, hit)
    ensures Found(st, dek, needle, hit) <==> Matches(st, dek, needle, hit)
    ensures forall h | Found(st, dek, needle, h) && h.path.secret == w.id :: h == hit
  {
  }

  lemma OneMoreHit(st: State, dek: Bytes, needle: string, seen: set<Id>, hits: seq<Hit>, hit: Hit)
    requires AreHits(st, dek, needle, seen, hits) && hit.path.secret !in seen && Found(st, dek, needle, hit)
    requires forall h | Found(st, dek, needle, h) && h.path.secret == hit.path.secret :: h == hit
    ensures AreHits(st, dek, needle, seen + {hit.path.secret}, hits + [hit])
  {
    hide Found;
    var hits' := hits + [hit];
    assert hits'[|hits|] == hit;
    assert forall k | 0 <= k < |hits| :: hits'[k] == hits[k];
    assert forall h | h in hits :: h in hits';
  }

  lemma OneMoreMiss(st: State, dek: Bytes, needle: string, seen: set<Id>, hits: seq<Hit>, id: Id)
    requires AreHits(st, dek, needle, seen, hits)
    requires forall h | Found(st, dek, needle, h) :: h.path.secret != id
    ensures AreHits(st, dek, needle, seen + {id}, hits)
  {
    hide Found;
  }

  lemma OneMoreRow(st: State, dek: Bytes, needle: string, seen: set<Id>, hits: seq<Hit>, w: Store.SecretWithPath,
        hit: Hit)
    requires AreHits(st, dek, needle, seen, hits) && w.id !in seen
    requires Store.Describes(st.rows, w) && hit.path == PathOf(w) && Shows(st, dek, hit)
    ensures AreHits(st, dek, needle, seen + {w.id}, if Matches(st, dek, needle, hit) then hits + [hit] else hits)
  {
    HitIsUnique(st, dek, needle, w, hit);
    hide AreHits, Found, Matches, Shows, Store.Describes;
    if Matches(st, dek, needle, hit) {
      OneMoreHit(st, dek, needle, seen, hits, hit);
    } else {
      OneMoreMiss(st, dek, needle, seen, hits, w.id);
    }
  }
}
