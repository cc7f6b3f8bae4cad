/** Importing a .env file into a folder or an environment. */
module Import {
  import opened Common
  import opened Aead
  import opened EnvFile
  import opened Samples
  import opened Sealing
  import opened Tables
  import opened VaultSpec
  import Paths
  import Vault

  // ---- names ----

  /** The whitespace of the name convention, which leaves out vertical tabs. */
  predicate IsGap(c: char) {
    c == ' ' || c == '\t' || c == NL || c == '\U{0C}' || c == CR
  }

  function DropGaps(s: string): string {
    if s != "" && IsGap(s[0]) then DropGaps(s[1..]) else s
  }

  lemma DropGapsShrinks(s: string)
    ensures |DropGaps(s)| <= |s|
  {
  }

  /** Every run of whitespace becomes one underscore. */
  function Underscored(s: string): string
    decreases |s|
  {
    if s == "" then ""
    else if IsGap(s[0]) then DropGapsShrinks(s[1..]); "_" + Underscored(DropGaps(s[1..]))
    else [s[0]] + Underscored(s[1..])
  }

  function Upper(c: char): char {
    if 'a' <= c <= 'z' then (c as int - 32) as char else c
  }

  function ToUpper(s: string): string {
    seq(|s|, i requires 0 <= i < |s| => Upper(s[i]))
  }

  function NormalizeKey(s: string): string {
    ToUpper(Underscored(TrimSpace(s)))
  }

  lemma {:induction false} UnderscoredHasNoGap(s: string)
    ensures forall i | 0 <= i < |Underscored(s)| :: !IsGap(Underscored(s)[i])
    decreases |s|
  {
    if s != "" {
      DropGapsShrinks(s[1..]);
      UnderscoredHasNoGap(if IsGap(s[0]) then DropGaps(s[1..]) else s[1..]);
    }
  }

  lemma {:induction false} UnderscoredKeeps(s: string)
    requires forall i | 0 <= i < |s| :: !IsGap(s[i])
    ensures Underscored(s) == s
  {
    if s != "" {
      UnderscoredKeeps(s[1..]);
    }
  }

  lemma {:induction false} DropGapsEnds(s: string)
    requires s != "" && !IsGap(s[|s| - 1])
    ensures DropGaps(s) != "" && DropGaps(s)[|DropGaps(s)| - 1] == s[|s| - 1]
  {
    if IsGap(s[0]) {
      DropGapsEnds(s[1..]);
    }
  }

  lemma {:induction false} UnderscoredEnds(s: string)
    requires s != "" && !IsGap(s[|s| - 1])
    ensures Underscored(s) != "" && Underscored(s)[|Underscored(s)| - 1] == s[|s| - 1]
    decreases |s|
  {
    if IsGap(s[0]) {
      DropGapsShrinks(s[1..]);
      DropGapsEnds(s[1..]);
      UnderscoredEnds(DropGaps(s[1..]));
    } else if |s| > 1 {
      UnderscoredEnds(s[1..]);
    }
  }

  lemma {:induction false} TrimRightTrims(s: string)
    ensures TrimRight(s) <= s && (TrimRight(s) != "" ==> !IsSpace(TrimRight(s)[|TrimRight(s)| - 1]))
  {
    if s != "" && IsSpace(s[|s| - 1]) {
      TrimRightTrims(s[..|s| - 1]);
    }
  }

  lemma TrimSpaceTrims(s: string)
    ensures IsTrimmed(TrimSpace(s))
  {
    TrimLeftTrims(s);
    TrimRightTrims(TrimLeft(s));
  }

  lemma TrimLeftTrims(s: string)
    ensures TrimLeft(s) != "" ==> !IsSpace(TrimLeft(s)[0])
  {
  }

  /** Stored names are in the convention already, so comparing normalized names
      with stored ones compares like with like. */
  lemma NormalizingTwice(s: string)
    ensures NormalizeKey(NormalizeKey(s)) == NormalizeKey(s)
  {
    var t, u, n := TrimSpace(s), Underscored(TrimSpace(s)), NormalizeKey(s);
    TrimSpaceTrims(s);
    UnderscoredHasNoGap(t);
    if t != "" {
      UnderscoredEnds(t);
      assert u[0] == t[0];
    }
    hide Underscored, TrimSpace;
    assert IsTrimmed(n);
    assert n == "" + n + "";
    TrimSpaceIs("", n, "");
    UnderscoredKeeps(n);
    assert ToUpper(n) == n;
  }

  /** The letters of a stored name: capitals for ASCII letters, no whitespace, every other
      character as it was. */
  lemma NormalizedLetters(s: string)
    ensures var u, n := Underscored(TrimSpace(s)), NormalizeKey(s);
      && |n| == |u|
      && (forall i | 0 <= i < |n| :: !('a' <= n[i] <= 'z'))
      && (forall i | 0 <= i < |n| :: n[i] == u[i] || ('A' <= n[i] <= 'Z' && u[i] as int == n[i] as int + 32))
      && (forall i | 0 <= i < |n| && !('a' <= u[i] <= 'z') :: n[i] == u[i])
      && (forall i | 0 <= i < |n| :: n[i] != ' ' && n[i] != '\t' && n[i] != '\n' && n[i] != '\r' && n[i] != '\U{0C}')
  {
    UnderscoredHasNoGap(TrimSpace(s));
    hide Underscored, TrimSpace;
  }

  predicate AllGap(s: string) {
    forall i | 0 <= i < |s| :: IsGap(s[i])
  }

  /** Between words a gap, however long and of whatever whitespace, becomes one underscore;
      a word itself stays. */
  lemma {:induction false} GapBecomesUnderscore(word: string, gap: string, rest: string)
    requires (forall i | 0 <= i < |word| :: !IsGap(word[i])) && gap != "" && AllGap(gap)
    requires rest != "" ==> !IsGap(rest[0])
    ensures Underscored(word + gap + rest) == word + "_" + Underscored(rest)
    decreases |word|
  {
    if word == "" {
      GapDrops(gap, rest);
      assert word + gap + rest == gap + rest && (gap + rest)[1..] == gap[1..] + rest;
      GapDrops(gap[1..], rest);
      assert word + "_" + Underscored(rest) == "_" + Underscored(rest);
    } else {
      assert (word + gap + rest)[1..] == word[1..] + gap + rest;
      GapBecomesUnderscore(word[1..], gap, rest);
      assert [word[0]] + (word[1..] + "_" + Underscored(rest)) == word + "_" + Underscored(rest);
    }
  }

  lemma {:induction false} GapDrops(gap: string, rest: string)
    requires AllGap(gap) && (rest != "" ==> !IsGap(rest[0]))
    ensures DropGaps(gap + rest) == rest
    decreases |gap|
  {
    if gap == "" {
      assert gap + rest == rest;
    } else {
      assert (gap + rest)[1..] == gap[1..] + rest;
      GapDrops(gap[1..], rest);
    }
  }

  // ---- which pairs are tried ----

  function Name(pairs: seq<Pair>, k: nat): string
    requires k < |pairs|
  {
    NormalizeKey(pairs[k].key)
  }

  /** The first pair of a new name. */
  ghost predicate IsNew(pairs: seq<Pair>, existing: set<string>, k: nat)
    requires k < |pairs|
  {
    Name(pairs, k) != "" && Name(pairs, k) !in existing && forall j | 0 <= j < k :: Name(pairs, j) != Name(pairs, k)
  }

  // ---- the import ----

  datatype Draw = Draw(id: Id, nonces: Cell -> Bytes)

  /** Where the pairs go, under which key, with which random draws. An environment,
      when one is given, is the target; else the folder is. */
  datatype Target = Target(
    dek: Bytes, folder: string, environment: string, encode: string -> Bytes, draws: nat -> Draw)
  {
    function InFolder(): string {
      if environment != "" then "" else folder
    }

    function Create(st: State, pairs: seq<Pair>, k: nat): (State, Result<()>)
      requires k < |pairs|
    {
      var name, value := encode(Name(pairs, k)), encode(pairs[k].value);
      Write(st, dek, NewSecret(draws(k).id, InFolder(), environment, name, value, []), draws(k).nonces)
    }
  }

  /** What importing the first pairs does: the state, and the names created. A pair
      the vault refuses is passed over. */
  ghost function Imported(st: State, t: Target, pairs: seq<Pair>, existing: set<string>, upTo: nat)
    : (State, seq<string>)
    requires upTo <= |pairs|
  {
    if upTo == 0 then (st, [])
    else
      var (before, names) := Imported(st, t, pairs, existing, upTo - 1);
      if !IsNew(pairs, existing, upTo - 1) then (before, names)
      else
        var (after, r) := t.Create(before, pairs, upTo - 1);
        (after, if r.Ok? then names + [Name(pairs, upTo - 1)] else names)
  }

  // ---- the names the import finds ----

  /** The secrets directly in the target. */
  ghost function TargetIds(r: Rows<Blob>, t: Target): set<Id> {
    if t.environment != "" then Paths.LooseSecrets(r, t.environment) else Paths.FolderSecrets(r, t.folder)
  }

  function NameOf(st: State, t: Target, id: Id): Result<Bytes> {
    Read(st, t.dek, Cell(Secrets, NameEnc, id))
  }

  /** The path leads to a secret that stands directly in the target. */
  predicate EndsIn(t: Target, p: Paths.Path) {
    if t.environment != "" then p.folder == None && p.environment == t.environment else p.folder == Some(t.folder)
  }

  /** The secrets whose names are compared are those that the join shows directly in the
      target; those in the folders of an environment are not. */
  lemma TargetIsOnThePath(r: Rows<Blob>, t: Target, id: Id)
    requires Intact(r)
    ensures id in TargetIds(r, t) <==>
      id in r.secrets && Paths.Joined(r, id).Some? && EndsIn(t, Paths.Joined(r, id).value)
  {
  }

  ghost predicate AllOpen(st: State, t: Target) {
    forall id | id in TargetIds(st.rows, t) :: NameOf(st, t, id).Ok?
  }

  ghost predicate IsListed(st: State, t: Target, decode: Bytes -> string, n: string) {
    exists id :: id in TargetIds(st.rows, t) && NameOf(st, t, id).Ok? && decode(NameOf(st, t, id).value) == n
  }

  /** The names in the target; none at all when one of them does not open, for the
      error of the listing is dropped. */
  ghost predicate Existing(st: State, t: Target, decode: Bytes -> string, names: set<string>) {
    if AllOpen(st, t) then forall n :: n in names <==> IsListed(st, t, decode, n) else names == {}
  }

  method ImportEnv(svc: Vault.Service, t: Target, content: string, decode: Bytes -> string)
    returns (created: seq<string>, ghost existing: set<string>)
    modifies svc.db
    ensures Existing(old(svc.db.State()), t, decode, existing)
    ensures var pairs := ParseLines(Split(content, NL));
      (svc.db.State(), created) == Imported(old(svc.db.State()), t, pairs, existing, |pairs|)
  {
    hide Existing, NormalizeKey, ParseLines, Split, Write;
    var seen := ExistingNames(svc, t, decode);
    existing := seen;
    created := [];
    var pairs := ParseEnv(content);
    for k := 0 to |pairs|
      invariant SeenSoFar(pairs, existing, seen, k)
      invariant (svc.db.State(), created) == Imported(old(svc.db.State()), t, pairs, existing, k)
    {
      SeenDecides(pairs, existing, seen, k);
      var name := NormalizeKey(pairs[k].key);
      if name == "" || name in seen {
        continue;
      }
      seen := seen + {name};
      var value := t.encode(pairs[k].value);
      var r;
      if t.environment != "" {
        r := svc.CreateEnvSecret(t.dek, t.draws(k).id, t.environment, t.encode(name), value, [], t.draws(k).nonces);
      } else {
        r := svc.CreateSecret(t.dek, t.draws(k).id, t.folder, t.encode(name), value, [], t.draws(k).nonces);
      }
      if r.Err? {
        continue;
      }
      created := created + [name];
    }
  }

  /** Names seen: those that existed, and those of the pairs before. */
  ghost predicate SeenSoFar(pairs: seq<Pair>, existing: set<string>, seen: set<string>, k: nat)
    requires k <= |pairs|
  {
    forall n | n != "" :: n in seen <==> n in existing || exists j :: 0 <= j < k && Name(pairs, j) == n
  }

  lemma SeenDecides(pairs: seq<Pair>, existing: set<string>, seen: set<string>, k: nat)
    requires k < |pairs| && SeenSoFar(pairs, existing, seen, k)
    ensures IsNew(pairs, existing, k) <==> Name(pairs, k) != "" && Name(pairs, k) !in seen
    ensures SeenSoFar(pairs, existing, if Name(pairs, k) == "" then seen else seen + {Name(pairs, k)}, k + 1)
    ensures Name(pairs, k) in seen ==> seen + {Name(pairs, k)} == seen
  {
    hide Name;
    var seen' := if Name(pairs, k) == "" then seen else seen + {Name(pairs, k)};
    forall n | n != "" ensures n in seen' <==> n in existing || exists j :: 0 <= j < k + 1 && Name(pairs, j) == n {
      if n in seen && n !in existing {
        var j :| 0 <= j < k && Name(pairs, j) == n;
      } else if n == Name(pairs, k) {
        assert 0 <= k < k + 1;
      }
    }
  }

  method ExistingNames(svc: Vault.Service, t: Target, decode: Bytes -> string) returns (names: set<string>)
    ensures Existing(svc.db.State(), t, decode, names)
  {
    var ids :=
      if t.environment != "" then Paths.LooseSecrets(svc.db.Rows(), t.environment)
      else Paths.FolderSecrets(svc.db.Rows(), t.folder);
    var metas := svc.ListSecrets(t.dek, ids);
    if metas.Err? {
      return {};
    }
    names := set m | m in metas.value :: decode(m.name);
    MetasListed(svc.db.State(), t, decode, metas.value, names);
  }

  lemma MetasListed(st: State, t: Target, decode: Bytes -> string, metas: seq<Vault.SecretMeta>, names: set<string>)
    requires Vault.SecretsShown(st, t.dek, metas, TargetIds(st.rows, t))
    requires names == set m | m in metas :: decode(m.name)
    ensures Existing(st, t, decode, names)
  {
    var ids := Vault.MetaIds(metas);
    hide TargetIds, Read;
    forall id | id in TargetIds(st.rows, t) ensures NameOf(st, t, id).Ok? && decode(NameOf(st, t, id).value) in names {
      var k :| 0 <= k < |ids| && ids[k] == id;
      assert Vault.SecretShown(st, t.dek, metas[k]) && metas[k] in metas;
    }
    forall n | n in names ensures IsListed(st, t, decode, n) {
      var m :| m in metas && decode(m.name) == n;
      var k :| 0 <= k < |metas| && metas[k] == m;
      assert Vault.SecretShown(st, t.dek, metas[k]) && ids[k] in ids;
    }
  }

  // ---- what an import amounts to ----

  /** The row that the k-th pair becomes. */
  function Row(t: Target, pairs: seq<Pair>, k: nat): SecretRow<Blob>
    requires k < |pairs|
  {
    var seal, id := Sealer(t.dek, t.draws(k).nonces), t.draws(k).id;
    SecretRow(NullStr(t.InFolder()), NullStr(t.environment),
      seal(Cell(Secrets, NameEnc, id), t.encode(Name(pairs, k))),
      seal(Cell(Secrets, ValueEnc, id), t.encode(pairs[k].value)),
      seal(Cell(Secrets, NotesEnc, id), []))
  }

  /** The target exists, the key is usable and the ids are unused. */
  ghost predicate CanImport(st: State, t: Target) {
    && UsableKey(Raw(t.dek))
    && ParentIntact(st.rows, NullStr(t.InFolder()), NullStr(t.environment))
    && (forall k: nat :: t.draws(k).id !in st.rows.secrets)
    && (forall j: nat, k: nat | j != k :: t.draws(j).id != t.draws(k).id)
  }

  /** An import needs the one target it is given, the environment before the folder, and
      creates every secret directly in that. */
  lemma ImportsInto(st: State, t: Target, pairs: seq<Pair>, k: nat)
    requires k < |pairs|
    ensures ParentIntact(st.rows, NullStr(t.InFolder()), NullStr(t.environment)) <==>
      if t.environment != "" then t.environment in st.rows.environments
      else t.folder != "" && t.folder in st.rows.folders
    ensures t.environment != "" ==>
      Row(t, pairs, k).folder == None && Row(t, pairs, k).environment == Some(t.environment)
    ensures t.environment == "" && t.folder != "" ==>
      Row(t, pairs, k).folder == Some(t.folder) && Row(t, pairs, k).environment == None
  {
    hide Name;
  }

  /** A file's import adds exactly one secret for the first pair of each new
      name, in the target, with the pair's name and value, and changes nothing else. */
  lemma {:induction false} ImportAddsExactly(st: State, t: Target, pairs: seq<Pair>, existing: set<string>, upTo: nat)
    requires CanImport(st, t) && upTo <= |pairs|
    ensures var (st', names) := Imported(st, t, pairs, existing, upTo);
      && st' == st.(rows := st.rows.(secrets := st'.rows.secrets))
      && (forall id :: id in st'.rows.secrets <==>
           id in st.rows.secrets || exists k :: 0 <= k < upTo && IsNew(pairs, existing, k) && t.draws(k).id == id)
      && (forall id | id in st.rows.secrets :: id in st'.rows.secrets && st'.rows.secrets[id] == st.rows.secrets[id])
      && (forall k | 0 <= k < upTo && IsNew(pairs, existing, k) ::
            t.draws(k).id in st'.rows.secrets && st'.rows.secrets[t.draws(k).id] == Row(t, pairs, k))
      && (forall n :: n in names <==> exists k :: 0 <= k < upTo && IsNew(pairs, existing, k) && Name(pairs, k) == n)
  {
    hide IsNew, Name, Row, Target.Create;
    if upTo > 0 {
      ImportAddsExactly(st, t, pairs, existing, upTo - 1);
      var before := Imported(st, t, pairs, existing, upTo - 1).0;
      assert t.draws(upTo - 1).id !in before.rows.secrets;
      CreateAdds(before, t, pairs, upTo - 1);
    }
  }

  lemma CreateAdds(st: State, t: Target, pairs: seq<Pair>, k: nat)
    requires k < |pairs| && UsableKey(Raw(t.dek)) && t.draws(k).id !in st.rows.secrets
    requires ParentIntact(st.rows, NullStr(t.InFolder()), NullStr(t.environment))
    ensures t.Create(st, pairs, k) ==
      (st.(rows := st.rows.(secrets := st.rows.secrets[t.draws(k).id := Row(t, pairs, k)])), Ok(()))
  {
    hide Name, RoleAad;
  }

  /** The names an import leaves in its target, when they all open before: those that
      were there, and those created. Whether they all open does not change. */
  lemma ListedAfter(st: State, t: Target, decode: Bytes -> string, pairs: seq<Pair>, existing: set<string>)
    requires CanImport(st, t) && forall s :: decode(t.encode(s)) == s
    ensures var (st', created) := Imported(st, t, pairs, existing, |pairs|);
      && (AllOpen(st', t) <==> AllOpen(st, t))
      && (forall n | IsListed(st, t, decode, n) || n in created :: IsListed(st', t, decode, n))
  {
    var (st', created) := Imported(st, t, pairs, existing, |pairs|);
    ImportAddsExactly(st, t, pairs, existing, |pairs|);
    hide Imported, IsNew, Name;
    forall k | 0 <= k < |pairs| && IsNew(pairs, existing, k)
      ensures t.draws(k).id in TargetIds(st'.rows, t)
      ensures NameOf(st', t, t.draws(k).id) == Ok(t.encode(Name(pairs, k)))
    {
      RowIsListed(st', t, pairs, k);
    }
    forall id | id in st.rows.secrets
      ensures id in TargetIds(st'.rows, t) <==> id in TargetIds(st.rows, t)
      ensures NameOf(st', t, id) == NameOf(st, t, id)
    {
    }
    hide TargetIds, NameOf;
    forall n | n in created ensures IsListed(st', t, decode, n) {
      var k :| 0 <= k < |pairs| && IsNew(pairs, existing, k) && Name(pairs, k) == n;
      assert NameOf(st', t, t.draws(k).id).Ok?;
    }
  }

  lemma RowIsListed(st: State, t: Target, pairs: seq<Pair>, k: nat)
    requires k < |pairs| && UsableKey(Raw(t.dek))
      && ParentIntact(st.rows, NullStr(t.InFolder()), NullStr(t.environment))
    requires t.draws(k).id in st.rows.secrets && st.rows.secrets[t.draws(k).id] == Row(t, pairs, k)
    ensures t.draws(k).id in TargetIds(st.rows, t)
    ensures NameOf(st, t, t.draws(k).id) == Ok(t.encode(Name(pairs, k)))
  {
    hide Name, RoleAad;
  }

  predicate SameTarget(t: Target, t': Target) {
    t.dek == t'.dek && t.folder == t'.folder && t.environment == t'.environment
  }

  /** Another call draws other ids. */
  ghost predicate OtherDraws(t: Target, t': Target) {
    forall j: nat, k: nat :: t.draws(j).id != t'.draws(k).id
  }

  lemma StillCanImport(st: State, t: Target, t': Target, pairs: seq<Pair>, existing: set<string>)
    requires CanImport(st, t) && CanImport(st, t') && OtherDraws(t, t')
    ensures CanImport(Imported(st, t, pairs, existing, |pairs|).0, t')
  {
    ImportAddsExactly(st, t, pairs, existing, |pairs|);
    hide Imported, IsNew;
  }

  predicate Nameless(pairs: seq<Pair>) {
    forall k | 0 <= k < |pairs| :: Name(pairs, k) == ""
  }

  lemma {:induction false} SomeNew(pairs: seq<Pair>, k: nat)
    requires k < |pairs| && Name(pairs, k) != ""
    ensures exists j :: 0 <= j <= k && IsNew(pairs, {}, j)
  {
    hide Name;
    if !IsNew(pairs, {}, k) {
      var j :| 0 <= j < k && Name(pairs, j) == Name(pairs, k);
      SomeNew(pairs, j);
    }
  }

  /** Importing a file a second time, from the store the first import left and with
      the names the second finds there itself: it changes nothing exactly when every
      name in the target opens, or the file names nothing. If one does not open, the
      error is dropped, no name counts as existing, and every name of the file is
      created once more. */
  lemma SecondImportExactly(st: State, t: Target, t': Target, decode: Bytes -> string, pairs: seq<Pair>,
      existing: set<string>, later: set<string>)
    requires CanImport(st, t) && CanImport(st, t') && SameTarget(t, t') && OtherDraws(t, t')
    requires forall s :: decode(t.encode(s)) == s
    requires Existing(st, t, decode, existing)
    requires Existing(Imported(st, t, pairs, existing, |pairs|).0, t', decode, later)
    ensures var (st1, created) := Imported(st, t, pairs, existing, |pairs|);
      var (st2, again) := Imported(st1, t', pairs, later, |pairs|);
      && (AllOpen(st, t) ==> st2 == st1)
      && (again == [] <==> AllOpen(st, t) || Nameless(pairs))
      && (!AllOpen(st, t) ==> forall n :: n in again <==> n in created)
  {
    var st1 := Imported(st, t, pairs, existing, |pairs|).0;
    ListedAfter(st, t, decode, pairs, existing);
    SameListing(st1, t, t', decode);
    if AllOpen(st, t) {
      hide Imported, IsListed, AllOpen, CanImport, Name;
      SecondFindsAll(st, t, t', pairs, existing, st1, later);
    } else {
      StillCanImport(st, t, t', pairs, existing);
      hide Imported, IsListed, AllOpen, CanImport, Name;
      SecondFindsNone(st, t, st1, t', pairs);
    }
  }

  /** A second import that finds the names that were there and those created. */
  lemma SecondFindsAll(st: State, t: Target, t': Target, pairs: seq<Pair>, existing: set<string>, st1: State,
        later: set<string>)
    requires CanImport(st, t) && existing <= later
    requires forall n | n in Imported(st, t, pairs, existing, |pairs|).1 :: n in later
    ensures Imported(st1, t', pairs, later, |pairs|) == (st1, [])
  {
    ImportAddsExactly(st, t, pairs, existing, |pairs|);
    var created := Imported(st, t, pairs, existing, |pairs|).1;
    hide Imported;
    forall k: nat | k < |pairs| ensures !IsNew(pairs, later, k) {
      NotNewAgain(pairs, existing, later, created, k);
    }
    NothingNew(st1, t', pairs, later, |pairs|);
  }

  /** Two imports of which neither finds any name. */
  lemma SecondFindsNone(st: State, t: Target, st1: State, t': Target, pairs: seq<Pair>)
    requires CanImport(st, t) && CanImport(st1, t')
    ensures var again := Imported(st1, t', pairs, {}, |pairs|).1;
      (again == [] <==> Nameless(pairs)) && forall n :: n in again <==> n in Imported(st, t, pairs, {}, |pairs|).1
  {
    hide Imported, IsNew, Name, CanImport;
    CreatedNames(st, t, pairs, {});
    CreatedNames(st1, t', pairs, {});
    if Nameless(pairs) {
      NamelessIsNeverNew(pairs);
      NothingNew(st1, t', pairs, {}, |pairs|);
    } else {
      var k: nat :| k < |pairs| && Name(pairs, k) != "";
      SomeNew(pairs, k);
      var j: nat :| j < |pairs| && IsNew(pairs, {}, j);
      assert Name(pairs, j) in Imported(st1, t', pairs, {}, |pairs|).1;
    }
  }

  lemma CreatedNames(st: State, t: Target, pairs: seq<Pair>, existing: set<string>)
    requires CanImport(st, t)
    ensures forall n :: n in Imported(st, t, pairs, existing, |pairs|).1 <==>
      exists k :: 0 <= k < |pairs| && IsNew(pairs, existing, k) && Name(pairs, k) == n
  {
    ImportAddsExactly(st, t, pairs, existing, |pairs|);
    hide Imported, IsNew, Name;
  }

  lemma NamelessIsNeverNew(pairs: seq<Pair>)
    requires Nameless(pairs)
    ensures forall k | 0 <= k < |pairs| :: !IsNew(pairs, {}, k)
  {
  }

  lemma NotNewAgain(pairs: seq<Pair>, existing: set<string>, later: set<string>, created: seq<string>, k: nat)
    requires k < |pairs| && existing <= later && forall n | n in created :: n in later
    requires IsNew(pairs, existing, k) ==> Name(pairs, k) in created
    ensures !IsNew(pairs, later, k)
  {
    hide Name;
  }

  lemma SameListing(st: State, t: Target, t': Target, decode: Bytes -> string)
    requires SameTarget(t, t')
    ensures AllOpen(st, t) <==> AllOpen(st, t')
    ensures forall n :: IsListed(st, t, decode, n) <==> IsListed(st, t', decode, n)
  {
    assert TargetIds(st.rows, t) == TargetIds(st.rows, t');
    assert forall id :: NameOf(st, t, id) == NameOf(st, t', id);
    hide TargetIds, NameOf;
    forall n ensures IsListed(st, t, decode, n) <==> IsListed(st, t', decode, n) {
      if id :| id in TargetIds(st.rows, t) && NameOf(st, t, id).Ok? && decode(NameOf(st, t, id).value) == n {
        assert NameOf(st, t', id).Ok?;
      }
      if id :| id in TargetIds(st.rows, t') && NameOf(st, t', id).Ok? && decode(NameOf(st, t', id).value) == n {
        assert NameOf(st, t, id).Ok?;
      }
    }
  }

  lemma {:induction false} NothingNew(st: State, t: Target, pairs: seq<Pair>, existing: set<string>, upTo: nat)
    requires upTo <= |pairs| && forall k | 0 <= k < upTo :: !IsNew(pairs, existing, k)
    ensures Imported(st, t, pairs, existing, upTo) == (st, [])
  {
    hide IsNew;
    if upTo > 0 {
      NothingNew(st, t, pairs, existing, upTo - 1);
    }
  }

  /** The file with its keys as they are stored. */
  function Normalized(pairs: seq<Pair>): seq<Pair> {
    seq(|pairs|, k requires 0 <= k < |pairs| => pairs[k].(key := NormalizeKey(pairs[k].key)))
  }

  /** A file written out under the stored names imports just as its original does, and
      so is never taken for new. */
  lemma {:induction false} StoredNamesAreKnown(st: State, t: Target, pairs: seq<Pair>, existing: set<string>, upTo: nat)
    requires upTo <= |pairs|
    ensures Imported(st, t, Normalized(pairs), existing, upTo) == Imported(st, t, pairs, existing, upTo)
  {
    NormalizedNames(pairs);
    hide Name, Normalized, IsNew, Imported;
    if upTo > 0 {
      StoredNamesAreKnown(st, t, pairs, existing, upTo - 1);
      OneNormalized(st, t, pairs, existing, upTo);
    } else {
      NoneImported(st, t, pairs, existing);
    }
  }

  lemma NoneImported(st: State, t: Target, pairs: seq<Pair>, existing: set<string>)
    ensures Imported(st, t, Normalized(pairs), existing, 0) == Imported(st, t, pairs, existing, 0)
  {
  }

  lemma NormalizedNames(pairs: seq<Pair>)
    ensures forall k: nat | k < |pairs| :: Name(Normalized(pairs), k) == Name(pairs, k)
  {
    forall k: nat | k < |pairs| ensures Name(Normalized(pairs), k) == Name(pairs, k) {
      NormalizingTwice(pairs[k].key);
    }
  }

  lemma OneNormalized(st: State, t: Target, pairs: seq<Pair>, existing: set<string>, upTo: nat)
    requires 0 < upTo <= |pairs|
    requires Imported(st, t, Normalized(pairs), existing, upTo - 1) == Imported(st, t, pairs, existing, upTo - 1)
    ensures Imported(st, t, Normalized(pairs), existing, upTo) == Imported(st, t, pairs, existing, upTo)
  {
    NormalizedNames(pairs);
    assert Normalized(pairs)[upTo - 1].value == pairs[upTo - 1].value;
    hide Name, Normalized, Write;
    assert IsNew(Normalized(pairs), existing, upTo - 1) == IsNew(pairs, existing, upTo - 1);
  }

  /** Two uploads of one file, one after the other. */
  method ImportTwice(svc: Vault.Service, t: Target, t': Target, content: string, decode: Bytes -> string)
    returns (created: seq<string>, again: seq<string>)
    requires CanImport(svc.db.State(), t) && CanImport(svc.db.State(), t') && SameTarget(t, t') && OtherDraws(t, t')
    requires forall s :: decode(t.encode(s)) == s
    modifies svc.db
    ensures AllOpen(old(svc.db.State()), t) ==> again == []
    ensures !AllOpen(old(svc.db.State()), t) ==> forall n :: n in again <==> n in created
  {
    ghost var st, pairs := svc.db.State(), ParseLines(Split(content, NL));
    ghost var existing, later;
    created, existing := ImportEnv(svc, t, content, decode);
    again, later := ImportEnv(svc, t', content, decode);
    SecondImportExactly(st, t, t', decode, pairs, existing, later);
  }

  // ---- a name that does not open ----

  function SealedUnder(key: Bytes, table: Table, column: Column, id: Id): Blob {
    Sealed(Raw(key), [], RoleAad(Cell(table, column, id)), [65])
  }

  /** A vault with one environment, and one secret there that was written under an
      outdated key. */
  function StaleName(): State {
    State(Some(VaultRow(2, COSTS, Wrap(2, PASSPHRASE, COSTS, [], DEK), 0)), Rows(
      map["p" := ProjectRow(SealedUnder(DEK, Projects, NameEnc, "p"))],
      map["e" := EnvironmentRow("p", SealedUnder(DEK, Environments, NameEnc, "e"))],
      map[],
      map["s" := SecretRow(None, Some("e"),
                           SealedUnder(OTHER_DEK, Secrets, NameEnc, "s"),
                           SealedUnder(OTHER_DEK, Secrets, ValueEnc, "s"),
                           SealedUnder(OTHER_DEK, Secrets, NotesEnc, "s"))],
      map[], None))
  }

  /** An import into that environment, with ids drawn by writing a letter ever more often. */
  function IntoStale(encode: string -> Bytes, letter: char): Target {
    Target(DEK, "", "e", encode, (k: nat) => Draw(seq(k + 2, _ => letter), _ => []))
  }

  /** A file with one name. */
  lemma OneName()
    ensures !Nameless([Pair("A", "1")])
  {
    assert TrimSpace("A") == "A";
    UnderscoredEnds("A");
    assert NormalizeKey("A") != "" && Name([Pair("A", "1")], 0) == NormalizeKey("A");
  }

  /** Any file that names something, as a file with one name does, is then imported
      twice in full: neither import finds a name, and each creates every name. */
  lemma StaleNameDoubles(encode: string -> Bytes, decode: Bytes -> string, pairs: seq<Pair>)
    requires (forall s :: decode(encode(s)) == s) && !Nameless(pairs)
    ensures Unlock(StaleName(), PASSPHRASE) == Ok(DEK) && Intact(StaleName().rows) && !Nameless([Pair("A", "1")])
    ensures var st, t, t' := StaleName(), IntoStale(encode, 'x'), IntoStale(encode, 'y');
      var (st1, created) := Imported(st, t, pairs, {}, |pairs|);
      var again := Imported(st1, t', pairs, {}, |pairs|).1;
      && Existing(st, t, decode, {}) && Existing(st1, t', decode, {})
      && again != [] && forall n :: n in again <==> n in created
  {
    StaleNameIsAVault();
    OneName();
    hide StaleName, IntoStale, Imported, CanImport, AllOpen, Nameless, IsListed, Name, DEK, Unlock, Intact, OtherDraws;
    var st, t, t' := StaleName(), IntoStale(encode, 'x'), IntoStale(encode, 'y');
    var st1 := Imported(st, t, pairs, {}, |pairs|).0;
    StaleNameIsStale(encode);
    ListedAfter(st, t, decode, pairs, {});
    SameListing(st1, t, t', decode);
    SecondImportExactly(st, t, t', decode, pairs, {}, {});
  }

  lemma StaleNameIsAVault()
    ensures Unlock(StaleName(), PASSPHRASE) == Ok(DEK) && Intact(StaleName().rows)
  {
    hide RoleAad;
  }

  lemma StaleNameIsStale(encode: string -> Bytes)
    ensures var st, t, t' := StaleName(), IntoStale(encode, 'x'), IntoStale(encode, 'y');
      && CanImport(st, t) && CanImport(st, t') && SameTarget(t, t') && OtherDraws(t, t') && !AllOpen(st, t)
      && t.encode == encode
  {
    hide StaleName, TargetIds, NameOf, DEK, CanImport, AllOpen;
    var t, t' := IntoStale(encode, 'x'), IntoStale(encode, 'y');
    assert t.dek == t'.dek == DEK && t.environment == t'.environment == "e" && t.InFolder() == t'.InFolder() == "";
    hide IntoStale;
    LettersDiffer(encode, 'x', 'y');
    LettersDiffer(encode, 'y', 'x');
    StaleCanImport(t);
    StaleCanImport(t');
    DoesNotOpen(t);
  }

  lemma StaleCanImport(t: Target)
    requires t.dek == DEK && t.environment == "e" && t.InFolder() == "" && forall j: nat :: t.draws(j).id != "s"
    requires forall j: nat, k: nat | j != k :: t.draws(j).id != t.draws(k).id
    ensures CanImport(StaleName(), t)
  {
    assert StaleName().rows.secrets.Keys == {"s"};
    hide RoleAad;
  }

  lemma LettersDiffer(encode: string -> Bytes, a: char, b: char)
    requires a != b
    ensures var t, t' := IntoStale(encode, a), IntoStale(encode, b);
      && (forall j: nat :: t.draws(j).id != "s")
      && (forall j: nat, k: nat | j != k :: t.draws(j).id != t.draws(k).id)
      && OtherDraws(t, t')
  {
    var t, t' := IntoStale(encode, a), IntoStale(encode, b);
    assert forall j: nat :: |t.draws(j).id| == j + 2 && t.draws(j).id[0] == a && t'.draws(j).id[0] == b;
    hide IntoStale;
  }

  lemma DoesNotOpen(t: Target)
    requires t.dek == DEK && t.environment == "e"
    ensures !AllOpen(StaleName(), t)
  {
    KeysDiffer();
    assert "s" in TargetIds(StaleName().rows, t) && NameOf(StaleName(), t, "s").Err?;
    hide RoleAad;
  }
}
