/** Operational settings: saved as text in the database, laid over the
    configuration at the next start. */
module Settings {
  import opened Common
  import opened Duration
  import EnvFile
  import Sessions
  import Text

  const BACKUP_AT := "backup_at"
  const BACKUP_KEEP := "backup_keep"
  const SESSION_IDLE := "session_idle"
  const SESSION_MAX := "session_max"

  type Stored = map<string, string>

  datatype Config = Config(backupAt: string, backupKeep: int, idle: Duration, max: Duration)

  /** How whole numbers, times of day and fractions of durations are read. */
  datatype Readers = Readers(atoi: string -> Option<int>, timeOfDay: string -> bool, product: Product)

  // ---- the configuration ----

  predicate GoodTime(r: Readers, at: string) {
    at == "" || r.timeOfDay(at)
  }

  function Repaired(c: Config): Config {
    var idle := if c.idle <= 0 then 30 * MINUTE else c.idle;
    Config(c.backupAt, if c.backupKeep < 1 then 1 else c.backupKeep, idle, if c.max < idle then idle else c.max)
  }

  function DurationOr(r: Readers, kv: Stored, key: string, other: Duration): Duration {
    if key in kv && ParseDuration(r.product, kv[key]).Time? then ParseDuration(r.product, kv[key]).d else other
  }

  function Merged(c: Config, kv: Stored, r: Readers): Config {
    Config(
      if BACKUP_AT in kv then kv[BACKUP_AT] else c.backupAt,
      if BACKUP_KEEP in kv && r.atoi(kv[BACKUP_KEEP]).Some? then r.atoi(kv[BACKUP_KEEP]).value else c.backupKeep,
      DurationOr(r, kv, SESSION_IDLE, c.idle),
      DurationOr(r, kv, SESSION_MAX, c.max))
  }

  class Checked {
    var c: Config

    constructor (c: Config)
      ensures this.c == c
    {
      this.c := c;
    }

    /** Raises what is too low; only a time of day that cannot be read is an error. */
    method Validate(r: Readers) returns (ok: bool)
      modifies this
      ensures ok == GoodTime(r, old(c).backupAt)
      ensures ok ==> c == Repaired(old(c))
    {
      if c.backupKeep < 1 {
        c := c.(backupKeep := 1);
      }
      if c.backupAt != "" {
        if !r.timeOfDay(c.backupAt) {
          return false;
        }
      }
      if c.idle <= 0 {
        c := c.(idle := 30 * MINUTE);
      }
      if c.max < c.idle {
        c := c.(max := c.idle);
      }
      return true;
    }
  }

  method WithOverrides(c: Config, kv: Stored, r: Readers) returns (merged: Config, ok: bool)
    ensures ok == GoodTime(r, Merged(c, kv, r).backupAt)
    ensures ok ==> merged == Repaired(Merged(c, kv, r))
  {
    var d := new Checked(c);
    if BACKUP_AT in kv {
      d.c := d.c.(backupAt := kv[BACKUP_AT]);
    }
    if BACKUP_KEEP in kv {
      var n := r.atoi(kv[BACKUP_KEEP]);
      if n.Some? {
        d.c := d.c.(backupKeep := n.value);
      }
    }
    if SESSION_IDLE in kv {
      var t := ParseDuration(r.product, kv[SESSION_IDLE]);
      if t.Time? {
        d.c := d.c.(idle := t.d);
      }
    }
    if SESSION_MAX in kv {
      var t := ParseDuration(r.product, kv[SESSION_MAX]);
      if t.Time? {
        d.c := d.c.(max := t.d);
      }
    }
    ok := d.Validate(r);
    merged := d.c;
  }

  /** The configuration a start runs with: stored settings that do not pass leave
      the environment's. */
  function Started(c: Config, kv: Stored, r: Readers): Config {
    if GoodTime(r, Merged(c, kv, r).backupAt) then Repaired(Merged(c, kv, r)) else c
  }

  method Start(c: Config, kv: Stored, r: Readers) returns (running: Config)
    ensures running == Started(c, kv, r)
  {
    var merged, ok := WithOverrides(c, kv, r);
    return if ok then merged else c;
  }

  // ---- saving ----

  datatype Reply = Saved | Rejected

  class Table {
    var kv: Stored

    constructor ()
      ensures kv == map[]
    {
      kv := map[];
    }

    /** Upserts every given setting. */
    method SetSettings(given: Stored)
      modifies this
      ensures kv == old(kv) + given
    {
      var keys := Enumerate(given.Keys);
      for i := 0 to |keys|
        invariant forall k :: k in kv <==> k in old(kv) || k in keys[..i]
        invariant forall k | k in kv :: k in keys[..i] ==> kv[k] == given[k]
        invariant forall k | k in old(kv) :: k !in keys[..i] ==> kv[k] == old(kv)[k]
      {
        assert keys[i] in given;
        assert keys[..i + 1] == keys[..i] + [keys[i]];
        kv := kv[keys[i] := given[keys[i]]];
      }
      assert keys[..|keys|] == keys;
    }

    /** Saves the timeouts and puts them into force. */
    method SaveSessionConfig(r: Readers, sessions: Sessions.Sessions, idleText: string, maxText: string)
      returns (reply: Reply)
      requires sessions.Valid()
      modifies this, sessions`idle, sessions`max
      ensures sessions.Valid()
      ensures var i := ParseDuration(r.product, EnvFile.TrimSpace(idleText));
        var x := ParseDuration(r.product, EnvFile.TrimSpace(maxText));
        if i.Time? && x.Time? && 0 < i.d <= x.d then
          && reply == Saved
          && sessions.idle == i.d && sessions.max == x.d
          && kv == old(kv)[SESSION_IDLE := ShortDur(i.d)][SESSION_MAX := ShortDur(x.d)]
        else
          reply == Rejected && kv == old(kv) && sessions.idle == old(sessions.idle) && sessions.max == old(sessions.max)
    {
      hide EnvFile.TrimSpace, ParseDuration, ShortDur;
      var idle := ParseDuration(r.product, EnvFile.TrimSpace(idleText));
      if idle.Bad? || idle.d <= 0 {
        return Rejected;
      }
      var max := ParseDuration(r.product, EnvFile.TrimSpace(maxText));
      if max.Bad? || max.d <= 0 {
        return Rejected;
      }
      if max.d < idle.d {
        return Rejected;
      }
      SetSettings(map[SESSION_IDLE := ShortDur(idle.d), SESSION_MAX := ShortDur(max.d)]);
      sessions.SetTimeouts(idle.d, max.d);
      return Saved;
    }

    /** Saves the schedule, with a time of day that can be read again, or none. */
    method SaveBackupConfig(r: Readers, enabled: bool, atText: string, keepText: string) returns (reply: Reply)
      modifies this
      ensures var (at, keep) :=
          (if enabled then EnvFile.TrimSpace(atText) else "", r.atoi(EnvFile.TrimSpace(keepText)));
        if (enabled ==> r.timeOfDay(at)) && keep.Some? && keep.value >= 1
        then reply == Saved && kv == old(kv)[BACKUP_AT := at][BACKUP_KEEP := Text.Decimal(keep.value)]
        else reply == Rejected && kv == old(kv)
    {
      hide EnvFile.TrimSpace, Text.Decimal;
      var at := EnvFile.TrimSpace(atText);
      if enabled {
        if !r.timeOfDay(at) {
          return Rejected;
        }
      } else {
        at := "";
      }
      var keep := r.atoi(EnvFile.TrimSpace(keepText));
      if keep.None? || keep.value < 1 {
        return Rejected;
      }
      SetSettings(map[BACKUP_AT := at, BACKUP_KEEP := Text.Decimal(keep.value)]);
      return Saved;
    }
  }

  // ---- across a restart ----

  /** The timeouts saved last are stored, in short form. */
  predicate Holds(kv: Stored, idle: Duration, max: Duration) {
    && SESSION_IDLE in kv && kv[SESSION_IDLE] == ShortDur(idle)
    && SESSION_MAX in kv && kv[SESSION_MAX] == ShortDur(max)
  }

  /** Saved timeouts survive a restart exactly when the time of day in force passes,
      or they are the environment's own anyway. */
  lemma TimeoutsSurviveExactly(c: Config, kv: Stored, r: Readers, idle: Duration, max: Duration)
    requires Exact(r.product) && Holds(kv, idle, max) && 0 < idle <= max
    ensures Started(c, kv, r).idle == idle && Started(c, kv, r).max == max <==>
      GoodTime(r, Merged(c, kv, r).backupAt) || (c.idle == idle && c.max == max)
  {
    ShortRoundTrip(r.product, idle);
    ShortRoundTrip(r.product, max);
    hide ParseDuration, ShortDur;
  }

  /** What the two forms save: a time of day that passes, when there is one. */
  predicate Passable(kv: Stored, r: Readers) {
    BACKUP_AT in kv ==> GoodTime(r, kv[BACKUP_AT])
  }

  datatype Save =
    | Timeouts(idle: Duration, max: Duration)
    | Schedule(at: string, keep: nat)

  predicate Saveable(r: Readers, s: Save) {
    match s
    case Timeouts(idle, max) => 0 < idle <= max
    case Schedule(at, _) => GoodTime(r, at)
  }

  function AfterSave(r: Readers, kv: Stored, s: Save): Stored
    requires Saveable(r, s)
  {
    match s
    case Timeouts(idle, max) => kv[SESSION_IDLE := ShortDur(idle)][SESSION_MAX := ShortDur(max)]
    case Schedule(at, keep) => kv[BACKUP_AT := at][BACKUP_KEEP := Text.Decimal(keep)]
  }

  function AfterSaves(r: Readers, kv: Stored, saves: seq<Save>): Stored
    requires forall s | s in saves :: Saveable(r, s)
    decreases |saves|
  {
    if saves == [] then kv else AfterSave(r, AfterSaves(r, kv, saves[..|saves| - 1]), saves[|saves| - 1])
  }

  /** The timeouts in force in the running program after the saves. */
  function InForce(saves: seq<Save>): Option<(Duration, Duration)> {
    if saves == [] then None
    else
      match saves[|saves| - 1]
      case Timeouts(idle, max) => Some((idle, max))
      case Schedule(_, _) => InForce(saves[..|saves| - 1])
  }

  lemma KeysDiffer()
    ensures BACKUP_AT != BACKUP_KEEP && SESSION_IDLE != SESSION_MAX
    ensures SESSION_IDLE != BACKUP_AT && SESSION_IDLE != BACKUP_KEEP && SESSION_MAX != BACKUP_AT
      && SESSION_MAX != BACKUP_KEEP
  {
    assert |BACKUP_AT| != |BACKUP_KEEP| && |SESSION_IDLE| != |SESSION_MAX|;
    assert BACKUP_AT[0] == BACKUP_KEEP[0] == 'b' && SESSION_IDLE[0] == SESSION_MAX[0] == 's';
  }

  /** One save keeps what it does not set. */
  lemma SaveKeeps(r: Readers, kv: Stored, s: Save)
    requires Passable(kv, r) && Saveable(r, s)
    ensures Passable(AfterSave(r, kv, s), r)
    ensures s.Timeouts? ==> Holds(AfterSave(r, kv, s), s.idle, s.max)
    ensures forall idle, max | s.Schedule? && Holds(kv, idle, max) :: Holds(AfterSave(r, kv, s), idle, max)
  {
    KeysDiffer();
    hide BACKUP_AT, BACKUP_KEEP, SESSION_IDLE, SESSION_MAX, ShortDur, GoodTime, Text.Decimal;
  }

  lemma {:induction false} SavesHold(r: Readers, kv: Stored, saves: seq<Save>)
    requires Passable(kv, r) && forall s | s in saves :: Saveable(r, s)
    ensures Passable(AfterSaves(r, kv, saves), r)
    ensures InForce(saves).Some? ==>
      var (idle, max) := InForce(saves).value; 0 < idle <= max && Holds(AfterSaves(r, kv, saves), idle, max)
    decreases |saves|
  {
    if saves != [] {
      hide Holds, Passable, AfterSave;
      var n := |saves| - 1;
      SavesHold(r, kv, saves[..n]);
      SaveKeeps(r, AfterSaves(r, kv, saves[..n]), saves[n]);
    }
  }

  /** After any saves, in any order, the next start runs with exactly the timeouts
      that were in force. */
  lemma SavedTimeoutsSurvive(c: Config, r: Readers, kv: Stored, saves: seq<Save>)
    requires Exact(r.product) && Passable(kv, r) && GoodTime(r, c.backupAt)
    requires InForce(saves).Some? && forall s | s in saves :: Saveable(r, s)
    ensures var started := Started(c, AfterSaves(r, kv, saves), r); (started.idle, started.max) == InForce(saves).value
  {
    SavesHold(r, kv, saves);
    var (idle, max) := InForce(saves).value;
    TimeoutsSurviveExactly(c, AfterSaves(r, kv, saves), r, idle, max);
    hide AfterSaves, InForce, Holds, Started;
    assert GoodTime(r, Merged(c, AfterSaves(r, kv, saves), r).backupAt);
  }

  /** The schedule saved last, if any was. */
  function LastSchedule(saves: seq<Save>): Option<(string, nat)> {
    if saves == [] then None
    else
      match saves[|saves| - 1]
      case Schedule(at, keep) => Some((at, keep))
      case Timeouts(_, _) => LastSchedule(saves[..|saves| - 1])
  }

  predicate HoldsSchedule(kv: Stored, at: string, keep: nat) {
    && BACKUP_AT in kv && kv[BACKUP_AT] == at
    && BACKUP_KEEP in kv && kv[BACKUP_KEEP] == Text.Decimal(keep)
  }

  lemma ScheduleKept(r: Readers, kv: Stored, s: Save)
    requires Saveable(r, s)
    ensures s.Schedule? ==> HoldsSchedule(AfterSave(r, kv, s), s.at, s.keep)
    ensures forall at, keep | s.Timeouts? && HoldsSchedule(kv, at, keep) :: HoldsSchedule(AfterSave(r, kv, s), at, keep)
  {
    KeysDiffer();
    hide BACKUP_AT, BACKUP_KEEP, SESSION_IDLE, SESSION_MAX, ShortDur, Text.Decimal, GoodTime;
  }

  lemma {:induction false} ScheduleHolds(r: Readers, kv: Stored, saves: seq<Save>)
    requires forall s | s in saves :: Saveable(r, s)
    ensures LastSchedule(saves).Some? ==>
      var (at, keep) := LastSchedule(saves).value; GoodTime(r, at) && HoldsSchedule(AfterSaves(r, kv, saves), at, keep)
    decreases |saves|
  {
    if saves != [] {
      hide HoldsSchedule, AfterSave;
      var n := |saves| - 1;
      ScheduleHolds(r, kv, saves[..n]);
      ScheduleKept(r, AfterSaves(r, kv, saves[..n]), saves[n]);
    }
  }

  /** After any saves, in any order, the next start runs with the schedule saved last: its
      time of day, or none, and its retention, which is never below one. */
  lemma SavedScheduleSurvives(c: Config, r: Readers, kv: Stored, saves: seq<Save>)
    requires forall n: nat :: r.atoi(Text.Decimal(n)) == Some(n)
    requires LastSchedule(saves).Some? && forall s | s in saves :: Saveable(r, s)
    ensures var started := Started(c, AfterSaves(r, kv, saves), r); var (at, keep) := LastSchedule(saves).value;
      started.backupAt == at && started.backupKeep == (if keep < 1 then 1 else keep)
  {
    ScheduleHolds(r, kv, saves);
    var (at, keep) := LastSchedule(saves).value;
    assert r.atoi(Text.Decimal(keep)) == Some(keep);
    hide AfterSaves, LastSchedule, Text.Decimal, DurationOr;
  }

  /** What a start makes of stored values: one that is absent or cannot be read leaves the
      environment's, and what is too low is raised just enough. */
  lemma StartsWith(c: Config, kv: Stored, r: Readers)
    requires BACKUP_AT in kv ==> GoodTime(r, kv[BACKUP_AT])
    requires GoodTime(r, c.backupAt)
    ensures var started := Started(c, kv, r);
      && started.backupKeep >= 1 && started.idle > 0 && started.max >= started.idle
      && (BACKUP_AT !in kv ==> started.backupAt == c.backupAt)
      && ((BACKUP_KEEP !in kv || r.atoi(kv[BACKUP_KEEP]).None?) && c.backupKeep >= 1 ==>
            started.backupKeep == c.backupKeep)
      && ((SESSION_IDLE !in kv || ParseDuration(r.product, kv[SESSION_IDLE]).Bad?) && c.idle > 0 ==>
            started.idle == c.idle)
      && ((SESSION_MAX !in kv || ParseDuration(r.product, kv[SESSION_MAX]).Bad?) && c.max >= started.idle ==>
            started.max == c.max)
      && (SESSION_IDLE in kv && ParseDuration(r.product, kv[SESSION_IDLE]).Time? ==>
            var idle := ParseDuration(r.product, kv[SESSION_IDLE]).d;
            started.idle == if idle > 0 then idle else 30 * 60 * 1_000_000_000)
      && (SESSION_IDLE !in kv && c.idle <= 0 ==> started.idle == 30 * 60 * 1_000_000_000)
      && (SESSION_MAX in kv && ParseDuration(r.product, kv[SESSION_MAX]).Time? ==>
            var max := ParseDuration(r.product, kv[SESSION_MAX]).d;
            started.max == if max >= started.idle then max else started.idle)
  {
    hide ParseDuration;
  }

  /** A stored time of day that cannot be read makes the start ignore all that is stored. */
  lemma UnreadableTimeIsIgnored(c: Config, kv: Stored, r: Readers)
    requires BACKUP_AT in kv && kv[BACKUP_AT] != "" && !r.timeOfDay(kv[BACKUP_AT])
    ensures Started(c, kv, r) == c
  {
    hide ParseDuration;
  }
}
