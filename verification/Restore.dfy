/** Restoring a backup: staging while the program runs, swapping at the next boot,
    with the machine free to stop between any two file operations. */
module Restore {
  import opened Common

  const CAP := 0x1000_0000 // 256 MiB

  datatype File = Live | LiveWal | LiveShm | Pending | Staging

  type Files = map<File, Bytes>

  const LIVE_FILES := {Live, LiveWal, LiveShm}

  /** The database the files hold: the main file with its sidecars. */
  function Vault(f: Files): Files {
    map k | k in f && k in LIVE_FILES :: f[k]
  }

  // ---- opening the store ----

  /** One step of opening the store over the vault's files. */
  datatype Opening =
    | Through              // the store is open
    | Denied               // opening fails
    | Onward(vault: Files) // one migration is committed

  /** What decides over files: whether a staged one passes vetting, one step of opening
      the store, and how many steps that takes at most. */
  datatype Engine = Engine(valid: Bytes -> bool, open: Files -> Opening, most: nat)

  /** Opening the store creates the database file if there is none. */
  const NEW_DB: Bytes := []

  function OpenStep(en: Engine, v: Files): Opening {
    if Live !in v then Onward(v[Live := NEW_DB])
    else match en.open(v) case Onward(v') => Onward(Vault(v')) case o => o
  }

  function Advanced(en: Engine, v: Files, n: nat): Files
    decreases n
  {
    if n == 0 || !OpenStep(en, v).Onward? then v else Advanced(en, OpenStep(en, v).vault, n - 1)
  }

  /** Opening comes to an end, and never takes the database file away. */
  ghost predicate Lawful(en: Engine) {
    && (forall v: Files :: !OpenStep(en, Advanced(en, v, en.most)).Onward?)
    && (forall v: Files | Live in v && en.open(v).Onward? :: Live in en.open(v).vault)
  }

  /** The vault after all steps, and whether they come through. */
  function Settled(en: Engine, v: Files): Files {
    Advanced(en, v, en.most)
  }

  predicate Opens(en: Engine, v: Files) {
    OpenStep(en, Settled(en, v)).Through?
  }

  lemma {:induction false} AdvancedAdds(en: Engine, v: Files, n: nat, m: nat)
    ensures Advanced(en, Advanced(en, v, n), m) == Advanced(en, v, n + m)
    decreases n
  {
    if n > 0 && OpenStep(en, v).Onward? {
      AdvancedAdds(en, OpenStep(en, v).vault, n - 1, m);
    }
  }

  /** Wherever opening stopped, it goes on to the same end. */
  lemma SettlesAlike(en: Engine, v: Files, n: nat)
    requires Lawful(en)
    ensures Settled(en, Advanced(en, v, n)) == Settled(en, v)
  {
    AdvancedAdds(en, v, n, en.most);
    AdvancedAdds(en, v, en.most, n);
    assert !OpenStep(en, Advanced(en, v, en.most)).Onward?;
  }

  // ---- boot ----

  /** Where the boot stands. */
  datatype Pc = Clear(i: nat) | Swap | Discard | Enter | Serving | Failed {
    predicate Over() {
      Serving? || Failed?
    }
  }

  const TO_CLEAR := [Live, LiveWal, LiveShm]

  function Start(en: Engine, f: Files): Pc {
    if Pending !in f then Enter else if en.valid(f[Pending]) then Clear(0) else Discard
  }

  function BootStep(en: Engine, f: Files, pc: Pc): (Files, Pc) {
    match pc
    case Clear(i) =>
      if i < |TO_CLEAR| then (f - {TO_CLEAR[i]}, if i + 1 == |TO_CLEAR| then Swap else Clear(i + 1)) else (f, Swap)
    case Swap => (if Pending in f then (f - {Pending})[Live := f[Pending]] else f, Enter)
    case Discard => (f - {Pending}, Enter)
    case Enter =>
      (match OpenStep(en, Vault(f))
       case Through => (f, Serving)
       case Denied => (f, Failed)
       case Onward(v) => ((f - LIVE_FILES) + v, Enter))
    case Serving => (f, Serving)
    case Failed => (f, Failed)
  }

  /** The boot allowed `patience` operations: the files it leaves, and where. */
  function Boot(en: Engine, f: Files, pc: Pc, patience: nat): (Files, Pc)
    decreases patience
  {
    if patience == 0 || pc.Over() then (f, pc)
    else var (f', pc') := BootStep(en, f, pc); Boot(en, f', pc', patience - 1)
  }

  // ---- the data directory ----

  datatype Outcome = Halted | Refused | Committed

  /** The part of an upload that is read at all. */
  function Kept(src: Bytes): Bytes {
    if |src| <= CAP then src else src[..CAP]
  }

  /** What staging may leave behind. */
  predicate Staged(valid: Bytes -> bool, before: Files, after: Files, src: Bytes, out: Outcome) {
    match out
    case Halted => after - {Staging} == before - {Staging}
    case Refused => !valid(Kept(src)) && after == before - {Staging}
    case Committed => valid(Kept(src)) && after == (before - {Staging})[Pending := Kept(src)]
  }

  class DataDir {
    var files: Files

    constructor (files: Files)
      ensures this.files == files
    {
      this.files := files;
    }

    /** Swaps in a staged file, then opens the store; stops early when the machine
        does. */
    method BootUp(en: Engine, patience: nat) returns (serving: bool)
      modifies this
      ensures var (f, pc) := Boot(en, old(files), Start(en, old(files)), patience);
        files == f && serving == pc.Serving?
    {
      var left := patience;
      if Pending in files {
        if !en.valid(files[Pending]) {
          if left == 0 {
            return false;
          }
          files, left := files - {Pending}, left - 1;
        } else {
          for i := 0 to |TO_CLEAR|
            invariant Pending in files
            invariant Boot(en, old(files), Clear(0), patience)
              == Boot(en, files, if i < |TO_CLEAR| then Clear(i) else Swap, left)
          {
            if left == 0 {
              return false;
            }
            files, left := files - {TO_CLEAR[i]}, left - 1;
          }
          if left == 0 {
            return false;
          }
          files, left := (files - {Pending})[Live := files[Pending]], left - 1;
        }
      }
      serving := OpenStore(en, left);
    }

    /** Creates the database file if there is none, then migrates. */
    method OpenStore(en: Engine, patience: nat) returns (serving: bool)
      modifies this
      ensures var (f, pc) := Boot(en, old(files), Enter, patience);
        files == f && serving == pc.Serving?
    {
      var left := patience;
      while left > 0
        invariant Boot(en, old(files), Enter, patience) == Boot(en, files, Enter, left)
      {
        match OpenStep(en, Vault(files)) {
          case Through => return true;
          case Denied => return false;
          case Onward(v) => files, left := (files - LIVE_FILES) + v, left - 1;
        }
      }
      return false;
    }

    /** Copies an upload to the side, vets it, and commits it by a rename. */
    method Stage(valid: Bytes -> bool, src: Bytes, buf: nat, patience: nat) returns (out: Outcome)
      requires buf > 0
      modifies this
      ensures Staged(valid, old(files), files, src, out)
      ensures patience >= |src| + 2 ==> out == if valid(Kept(src)) then Committed else Refused
    {
      if patience == 0 {
        return Halted;
      }
      var left, n := patience - 1, 0;
      files := files[Staging := []];
      while n < |Kept(src)|
        invariant 0 <= n <= |Kept(src)|
        invariant files == old(files)[Staging := src[..n]]
        invariant left + n >= patience - 1
        decreases |Kept(src)| - n
      {
        if left == 0 {
          return Halted;
        }
        var to := if n + buf < |Kept(src)| then n + buf else |Kept(src)|;
        files, left := files[Staging := files[Staging] + src[n..to]], left - 1;
        assert src[..n] + src[n..to] == src[..to];
        n := to;
      }
      assert src[..n] == Kept(src);
      if left == 0 {
        return Halted;
      }
      if !valid(files[Staging]) {
        files := files - {Staging};
        return Refused;
      }
      files := (files - {Staging})[Pending := files[Staging]];
      return Committed;
    }
  }

  // ---- the program with crashes, and one in which restoring is a single step ----

  datatype World = World(files: Files, up: bool)

  datatype Event =
    | BootEvent(patience: nat, serving: bool)
    | Work(vault: Files)               // the running program changes its database
    | Upload(src: Bytes, out: Outcome) // a restore request
    | Stop                             // a crash or a shutdown

  predicate Next(en: Engine, w: World, e: Event, w': World) {
    match e
    case BootEvent(patience, serving) =>
      var (f, pc) := Boot(en, w.files, Start(en, w.files), patience);
      !w.up && serving == pc.Serving? && w' == World(f, serving)
    case Work(vault) =>
      w.up && Live in vault && vault.Keys <= LIVE_FILES && w' == w.(files := (w.files - LIVE_FILES) + vault)
    case Upload(src, out) => w.up && Staged(en.valid, w.files, w'.files, src, out) && w'.up == (out != Halted)
    case Stop => w' == w.(up := false)
  }

  /** The vault, and the backup that is to replace it at the next boot. */
  datatype Ideal = Ideal(vault: Files, due: Option<Bytes>) {
    /** What the next boot is to serve. */
    function Coming(): Files {
      if due.Some? then map[Live := due.value] else vault
    }
  }

  function IdealNext(en: Engine, a: Ideal, e: Event): Ideal {
    match e
    case BootEvent(_, serving) => if serving then Ideal(Settled(en, a.Coming()), None) else a
    case Work(vault) => a.(vault := vault)
    case Upload(src, out) => if out == Committed then a.(due := Some(Kept(src))) else a
    case Stop => a
  }

  predicate PartOf(f: Files, g: Files) {
    forall k | k in f :: k in g && f[k] == g[k]
  }

  /** The vault as opening may have left it when it stopped or failed. */
  ghost predicate Reached(en: Engine, v: Files, from: Files) {
    exists n: nat :: v == Advanced(en, from, n)
  }

  lemma ReachedFrom(en: Engine, v: Files)
    ensures Reached(en, v, v)
  {
    assert Advanced(en, v, 0) == v;
  }

  /** What the files may look like. Only while a valid replacement waits beside it
      may the vault be incomplete; a replacement in place stands without sidecars,
      its migration begun or not. */
  ghost predicate Matches(en: Engine, w: World, a: Ideal) {
    && a.vault.Keys <= LIVE_FILES
    && (w.up ==> Vault(w.files) == a.vault && Live in a.vault)
    && match a.due
       case None =>
         (Pending in w.files ==> !en.valid(w.files[Pending])) && Reached(en, Vault(w.files), a.vault)
       case Some(s) =>
         en.valid(s) &&
         if Pending in w.files then w.files[Pending] == s && PartOf(Vault(w.files), a.vault)
         else !w.up && Reached(en, Vault(w.files), map[Live := s])
  }

  /** The same at each point of a boot. */
  ghost predicate BootMatches(en: Engine, f: Files, pc: Pc, a: Ideal) {
    match pc
    case Clear(i) =>
      && a.due.Some? && i < |TO_CLEAR| && Pending in f && Matches(en, World(f, false), a)
      && forall j | 0 <= j < i :: TO_CLEAR[j] !in f
    case Swap =>
      a.due.Some? && Pending in f && Matches(en, World(f, false), a) && forall k | k in LIVE_FILES :: k !in f
    case Discard => a.due.None? && Matches(en, World(f, false), a)
    case Enter => Pending !in f && Matches(en, World(f, false), a)
    case Serving => Matches(en, World(f, true), Ideal(Settled(en, a.Coming()), None)) && Opens(en, a.Coming())
    case Failed => Matches(en, World(f, false), a) && !Opens(en, a.Coming())
  }

  lemma StartMatches(en: Engine, f: Files, a: Ideal)
    requires Matches(en, World(f, false), a)
    ensures BootMatches(en, f, Start(en, f), a)
  {
    hide Reached;
  }

  lemma {:induction false} BootKeepsMatch(en: Engine, f: Files, pc: Pc, patience: nat, a: Ideal)
    requires Lawful(en) && BootMatches(en, f, pc, a)
    ensures var (f', pc') := Boot(en, f, pc, patience); BootMatches(en, f', pc', a)
    decreases patience
  {
    hide BootMatches, Lawful;
    if patience > 0 && !pc.Over() {
      var (f', pc') := BootStep(en, f, pc);
      BootStepMatches(en, f, pc, a);
      BootKeepsMatch(en, f', pc', patience - 1, a);
    }
  }

  lemma BootStepMatches(en: Engine, f: Files, pc: Pc, a: Ideal)
    requires Lawful(en) && BootMatches(en, f, pc, a) && !pc.Over()
    ensures var (f', pc') := BootStep(en, f, pc); BootMatches(en, f', pc', a)
  {
    var (f', pc') := BootStep(en, f, pc);
    if pc.Clear? {
      assert PartOf(Vault(f'), Vault(f));
      assert TO_CLEAR[0] == Live && TO_CLEAR[1] == LiveWal && TO_CLEAR[2] == LiveShm;
      assert forall j | 0 <= j <= pc.i :: TO_CLEAR[j] !in f';
    } else if pc.Swap? {
      var v := map[Live := f[Pending]];
      assert Vault(f') == v == Advanced(en, v, 0);
    } else if pc.Enter? {
      OpeningMatches(en, f, a);
    } else {
      assert Vault(f') == Vault(f);
    }
  }

  lemma OpeningMatches(en: Engine, f: Files, a: Ideal)
    requires Lawful(en) && BootMatches(en, f, Enter, a)
    ensures var (f', pc') := BootStep(en, f, Enter); BootMatches(en, f', pc', a)
  {
    assert Reached(en, Vault(f), a.Coming());
    var (f', pc') := BootStep(en, f, Enter);
    var n: nat :| Vault(f) == Advanced(en, a.Coming(), n);
    SettlesAlike(en, a.Coming(), n);
    if pc'.Enter? {
      assert Vault(f') == OpenStep(en, Vault(f)).vault == Advanced(en, Vault(f), 1);
      AdvancedAdds(en, a.Coming(), n, 1);
    } else {
      assert Settled(en, Vault(f)) == Vault(f) == Advanced(en, Vault(f), 0);
    }
  }

  /** Files other than the vault's may change without the vault changing. */
  lemma StagingAside(f: Files, g: Files, aside: set<File>)
    requires f - aside == g - aside && aside !! LIVE_FILES
    ensures Vault(f) == Vault(g)
    ensures Pending !in aside ==>
      (Pending in f <==> Pending in g) && (Pending in f ==> f[Pending] == g[Pending])
  {
    assert forall k | k !in aside :: k in f <==> k in f - aside;
    assert forall k | k !in aside :: k in g <==> k in g - aside;
    assert forall k | k !in aside && k in f :: f[k] == (f - aside)[k] == (g - aside)[k] == g[k];
  }

  lemma NextMatches(en: Engine, w: World, e: Event, w': World, a: Ideal)
    requires Lawful(en) && Matches(en, w, a) && Next(en, w, e, w')
    ensures Matches(en, w', IdealNext(en, a, e))
  {
    hide Reached, Lawful;
    if e.BootEvent? {
      StartMatches(en, w.files, a);
      BootKeepsMatch(en, w.files, Start(en, w.files), e.patience, a);
    } else if e.Upload? {
      StagingAside(w.files, w'.files, if e.out == Committed then {Staging, Pending} else {Staging});
    } else if e.Work? {
      assert Vault(w'.files) == e.vault;
      ReachedFrom(en, e.vault);
    }
  }

  predicate Run(en: Engine, ws: seq<World>, es: seq<Event>) {
    |ws| == |es| + 1 && forall i | 0 <= i < |es| :: Next(en, ws[i], es[i], ws[i + 1])
  }

  function IdealAfter(en: Engine, a: Ideal, es: seq<Event>): Ideal
    decreases |es|
  {
    if es == [] then a else IdealNext(en, IdealAfter(en, a, es[..|es| - 1]), es[|es| - 1])
  }

  lemma {:induction false} RunMatches(en: Engine, ws: seq<World>, es: seq<Event>, a: Ideal)
    requires Lawful(en) && Run(en, ws, es) && Matches(en, ws[0], a)
    ensures Matches(en, ws[|es|], IdealAfter(en, a, es))
    decreases |es|
  {
    hide Next, IdealNext, Matches, Lawful;
    if es != [] {
      var n := |es| - 1;
      RunMatches(en, ws[..n + 1], es[..n], a);
      NextMatches(en, ws[n], es[n], ws[n + 1], IdealAfter(en, a, es[..n]));
    }
  }

  /** What any files mean to a boot: their vault, and a staged file if it is valid. */
  function Meant(en: Engine, f: Files): Ideal {
    Ideal(Vault(f), if Pending in f && en.valid(f[Pending]) then Some(f[Pending]) else None)
  }

  lemma MeantMatches(en: Engine, f: Files)
    ensures Matches(en, World(f, false), Meant(en, f))
  {
    ReachedFrom(en, Vault(f));
  }

  /** From any files whatever, and however often and wherever the machine stops,
      between two migrations too: whenever the program serves it serves the vault of
      the program in which restoring is one step, that is the vault as it was last, or
      the whole of the latest vetted backup, alone, brought to the newest version. An
      invalid staged file is never served, and while the database file is missing a
      valid replacement waits. */
  lemma CrashesNeverShow(en: Engine, ws: seq<World>, es: seq<Event>)
    requires Lawful(en) && Run(en, ws, es) && !ws[0].up
    ensures var w, ideal := ws[|es|], IdealAfter(en, Meant(en, ws[0].files), es);
      && Matches(en, w, ideal)
      && (w.up ==> Vault(w.files) == ideal.vault)
      && (Live in ideal.vault && Live !in w.files ==> Pending in w.files && en.valid(w.files[Pending]))
  {
    MeantMatches(en, ws[0].files);
    RunMatches(en, ws, es, Meant(en, ws[0].files));
    var w, ideal := ws[|es|], IdealAfter(en, Meant(en, ws[0].files), es);
    if Live in ideal.vault && (ideal.due.None? || Pending !in w.files) {
      LiveStays(en, w, ideal);
    }
  }

  lemma LiveStays(en: Engine, w: World, a: Ideal)
    requires Lawful(en) && Matches(en, w, a) && Live in a.vault && (a.due.None? || Pending !in w.files)
    ensures Live in w.files
  {
    var n: nat :| Vault(w.files) == Advanced(en, a.Coming(), n);
    AdvancedKeepsLive(en, a.Coming(), n);
  }

  lemma {:induction false} AdvancedKeepsLive(en: Engine, v: Files, n: nat)
    requires Lawful(en) && Live in v
    ensures Live in Advanced(en, v, n)
    decreases n
  {
    if n > 0 && OpenStep(en, v).Onward? {
      AdvancedKeepsLive(en, OpenStep(en, v).vault, n - 1);
    }
  }

  // ---- which boots serve ----

  /** The operations that take a boot to its end at most. */
  function OperationsLeft(en: Engine, pc: Pc): nat {
    en.most + match pc
      case Clear(i) => if i < |TO_CLEAR| then |TO_CLEAR| - i + 2 else 3
      case Swap => 2
      case Discard => 2
      case Enter => 1
      case Serving => 0
      case Failed => 0
  }

  /** A boot that is not stopped serves exactly when what it is to serve comes through
      the opening of the store: the backup that waits, if it is valid, else the vault
      as it stands. Otherwise the boot fails. */
  lemma BootServesExactly(en: Engine, f: Files, patience: nat)
    requires Lawful(en) && patience >= OperationsLeft(en, Start(en, f))
    ensures Boot(en, f, Start(en, f), patience).1 == if Opens(en, Meant(en, f).Coming()) then Serving else Failed
  {
    MeantMatches(en, f);
    StartMatches(en, f, Meant(en, f));
    BootKeepsMatch(en, f, Start(en, f), patience, Meant(en, f));
    BootEnds(en, f, Start(en, f), patience);
  }

  lemma {:induction false} BootEnds(en: Engine, f: Files, pc: Pc, patience: nat)
    requires Lawful(en) && patience >= OperationsLeft(en, pc)
    ensures Boot(en, f, pc, patience).1.Over()
    decreases patience
  {
    if pc.Enter? {
      assert !OpenStep(en, Advanced(en, Vault(f), en.most)).Onward?;
      OpeningEnds(en, f, en.most, patience);
    } else if !pc.Over() {
      var (f', pc') := BootStep(en, f, pc);
      hide Lawful;
      BootEnds(en, f', pc', patience - 1);
    }
  }

  lemma {:induction false} OpeningEnds(en: Engine, f: Files, n: nat, patience: nat)
    requires !OpenStep(en, Advanced(en, Vault(f), n)).Onward? && patience > n
    ensures Boot(en, f, Enter, patience).1.Over()
    decreases n
  {
    var (f', pc') := BootStep(en, f, Enter);
    if pc'.Enter? {
      OnwardVault(en, f);
      OpeningEnds(en, f', n - 1, patience - 1);
    } else {
      assert Boot(en, f, Enter, patience) == Boot(en, f', pc', patience - 1);
    }
  }

  /** After a step of the opening the files hold the vault it left. */
  lemma OnwardVault(en: Engine, f: Files)
    requires OpenStep(en, Vault(f)).Onward?
    ensures Vault(BootStep(en, f, Enter).0) == OpenStep(en, Vault(f)).vault
  {
  }

  /** However often the program is started and stopped, it comes to serve, be it at
      boot number `k` that is not stopped or before, exactly when what the files hold
      for a boot comes through the opening of the store: a backup that does not is
      never followed by a boot that serves. */
  lemma ServesExactly(en: Engine, ws: seq<World>, es: seq<Event>, k: nat)
    requires Lawful(en) && Run(en, ws, es) && !ws[0].up
    requires k < |es| && es[k].BootEvent? && es[k].patience >= OperationsLeft(en, Start(en, ws[k].files))
    ensures (exists i :: 0 <= i <= |es| && ws[i].up) <==> Opens(en, Meant(en, ws[0].files).Coming())
  {
    var a := Meant(en, ws[0].files);
    MeantMatches(en, ws[0].files);
    if i :| 0 <= i <= |es| && ws[i].up {
      FirstServes(en, ws, es, a, i);
    } else {
      NothingServed(en, ws, es, a, k);
      StartMatches(en, ws[k].files, a);
      BootKeepsMatch(en, ws[k].files, Start(en, ws[k].files), es[k].patience, a);
      BootEnds(en, ws[k].files, Start(en, ws[k].files), es[k].patience);
      assert Next(en, ws[k], es[k], ws[k + 1]) && !ws[k + 1].up;
    }
  }

  /** Until the program serves nothing changes what it is to serve. */
  lemma {:induction false} NothingServed(en: Engine, ws: seq<World>, es: seq<Event>, a: Ideal, n: nat)
    requires Lawful(en) && Run(en, ws, es) && Matches(en, ws[0], a)
    requires n <= |es| && forall i | 0 <= i <= n :: !ws[i].up
    ensures Matches(en, ws[n], a)
  {
    hide Lawful, Matches;
    if n > 0 {
      NothingServed(en, ws, es, a, n - 1);
      assert Next(en, ws[n - 1], es[n - 1], ws[n]);
      NextMatches(en, ws[n - 1], es[n - 1], ws[n], a);
    }
  }

  lemma {:induction false} FirstServes(en: Engine, ws: seq<World>, es: seq<Event>, a: Ideal, n: nat)
    requires Lawful(en) && Run(en, ws, es) && Matches(en, ws[0], a) && !ws[0].up
    requires n <= |es| && ws[n].up
    ensures Opens(en, a.Coming())
  {
    hide Lawful, Matches, Opens;
    if i :| 0 <= i < n && ws[i].up {
      FirstServes(en, ws, es, a, i);
    } else {
      NothingServed(en, ws, es, a, n - 1);
      assert Next(en, ws[n - 1], es[n - 1], ws[n]);
      StartMatches(en, ws[n - 1].files, a);
      BootKeepsMatch(en, ws[n - 1].files, Start(en, ws[n - 1].files), es[n - 1].patience, a);
    }
  }

  // ---- what is restored ----

  /** What is restored is the upload itself exactly up to the size cap; a longer one
      is cut without notice if what remains still passes for a vault. */
  lemma RestoredExactly(valid: Bytes -> bool, before: Files, after: Files, src: Bytes)
    requires Staged(valid, before, after, src, Committed)
    ensures after[Pending] == src <==> |src| <= 256 * 1024 * 1024
    ensures after[Pending] == src[..|after[Pending]|]
  {
  }

  /** A request that is not stopped commits exactly what passes vetting, and touches no file
      of the vault; what does not pass leaves an earlier upload waiting. */
  lemma UploadsAreJudged(en: Engine, w: World, e: Event, w': World)
    requires e.Upload? && e.out != Halted && Next(en, w, e, w')
    ensures var read := e.src[..if |e.src| <= 0x1000_0000 then |e.src| else 0x1000_0000];
      && (e.out == Committed <==> en.valid(read))
      && w'.files == if en.valid(read) then (w.files - {Staging})[Pending := read] else w.files - {Staging}
  {
    assert e.src[..|e.src|] == e.src;
  }

  /** One byte too many, and the upload that waits is not the one that was made. */
  lemma OversizedIsCut()
    ensures var src: Bytes := seq(CAP + 1, _ => 0);
      var after: Files := map[Pending := src[..CAP]];
      Staged(_ => true, map[], after, src, Committed) && after[Pending] != src
  {
    var src: Bytes := seq(CAP + 1, _ => 0);
    assert |src[..CAP]| == CAP;
    assert (map[] - {Staging})[Pending := src[..CAP]] == map[Pending := src[..CAP]];
  }
}
