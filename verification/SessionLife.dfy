/** How long a session lives: exact lifetimes over whole runs of the session map,
    for fixed timeouts. */
module SessionLife {
  import opened Common
  import opened Sessions

  datatype Event =
    | Opened(id: string, dek: Option<Bytes>, csrf: string, pending: bool, at: int)
    | Used(id: string, at: int)
    | Rotated(id: string, newId: string, csrf: string, at: int)
    | Dropped(id: string, at: int)
    | Rekeyed(id: string, newDek: Bytes, at: int)
    | Tidied(at: int)

  datatype Timeouts = Timeouts(idle: int, max: int)

  function Step(v: Views, t: Timeouts, e: Event): Views {
    match e
    case Opened(id, dek, csrf, pending, at) => Put(v, id, dek, csrf, pending, at)
    case Used(id, at) => AfterLook(v, t.idle, t.max, id, at)
    case Rotated(id, newId, csrf, at) => Promoted(v, id, newId, csrf, at)
    case Dropped(id, _) => v - {id}
    case Rekeyed(id, dek, _) => WithKey(v, id, dek)
    case Tidied(at) => Swept(v, t.idle, t.max, at)
  }

  function Run(v: Views, t: Timeouts, es: seq<Event>): Views
    decreases |es|
  {
    if es == [] then v else Run(Step(v, t, es[0]), t, es[1..])
  }

  /** Event times run forward from `from` up to `to`. */
  predicate ClockRuns(es: seq<Event>, from: int, to: int) {
    if es == [] then from <= to else from <= es[0].at && ClockRuns(es[1..], es[0].at, to)
  }

  /** The run neither ends the session nor gives its id out again. */
  predicate LeavesAlone(es: seq<Event>, id: string) {
    forall i | 0 <= i < |es| ::
      && !(es[i].Dropped? && es[i].id == id)
      && !(es[i].Opened? && es[i].id == id)
      && !(es[i].Rotated? && (es[i].id == id || es[i].newId == id))
  }

  /** The times at which a session was asked for. */
  function UsesOf(es: seq<Event>, id: string): seq<int> {
    if es == [] then []
    else (if es[0].Used? && es[0].id == id then [es[0].at] else []) + UsesOf(es[1..], id)
  }

  predicate GapsWithin(last: int, uses: seq<int>, idle: int)
    decreases |uses|
  {
    uses != [] ==> uses[0] - last <= idle && GapsWithin(uses[0], uses[1..], idle)
  }

  function Alive(v: Views, t: Timeouts, id: string, now: int): bool {
    Look(v, t.idle, t.max, id, now).Some?
  }

  /** An id that is not in the map and not given out again stays dead. */
  lemma {:induction false} GoneStaysGone(v: Views, t: Timeouts, id: string, es: seq<Event>, now: int)
    requires id !in v && LeavesAlone(es, id)
    ensures !Alive(Run(v, t, es), t, id, now)
    decreases |es|
  {
    if es != [] {
      assert !(es[0].Opened? && es[0].id == id) && !(es[0].Rotated? && es[0].newId == id);
      assert LeavesAlone(es[1..], id);
      GoneStaysGone(Step(v, t, es[0]), t, id, es[1..], now);
    }
  }

  /** An unlocked session answers at `now` exactly when its age is within the
      maximum and no gap between successive uses, the last one included, exceeded
      the idle timeout; where the sweeps fell makes no difference. */
  lemma {:induction false} UnlockedLifetime(v: Views, t: Timeouts, id: string, es: seq<Event>, from: int, now: int)
    requires id in v && id != "" && !v[id].pending && v[id].lastSeen <= from
    requires ClockRuns(es, from, now) && LeavesAlone(es, id)
    ensures Alive(Run(v, t, es), t, id, now) <==>
      now - v[id].created <= t.max && GapsWithin(v[id].lastSeen, UsesOf(es, id) + [now], t.idle)
    decreases |es|
  {
    if es == [] {
      assert [now][1..] == [];
    } else {
      var e, rest, v' := es[0], es[1..], Step(v, t, es[0]);
      assert LeavesAlone(rest, id) by { assert forall i | 0 <= i < |rest| :: rest[i] == es[i + 1]; }
      NowIsLast(rest, e.at, now);
      UsesInOrder(rest, id, e.at, now);
      assert !(e.Rotated? && (e.id == id || e.newId == id)) && !(e.Opened? && e.id == id)
        && !(e.Dropped? && e.id == id);
      if e.Used? && e.id == id {
        assert UsesOf(es, id) + [now] == [e.at] + (UsesOf(rest, id) + [now]);
      } else {
        assert UsesOf(es, id) + [now] == UsesOf(rest, id) + [now];
      }
      if id in v' {
        UnlockedLifetime(v', t, id, rest, e.at, now);
      } else {
        GoneStaysGone(v', t, id, rest, now);
      }
    }
  }

  lemma {:induction false} NowIsLast(es: seq<Event>, from: int, now: int)
    requires ClockRuns(es, from, now)
    ensures from <= now
    decreases |es|
  {
    if es != [] {
      NowIsLast(es[1..], es[0].at, now);
    }
  }

  lemma {:induction false} UsesInOrder(es: seq<Event>, id: string, from: int, now: int)
    requires ClockRuns(es, from, now)
    ensures var uses := UsesOf(es, id) + [now]; from <= uses[0]
    decreases |es|
  {
    if es != [] {
      UsesInOrder(es[1..], id, es[0].at, now);
    }
  }

  /** A pending session answers exactly within its fixed time, however often it is
      asked for. */
  lemma {:induction false} PendingLifetime(v: Views, t: Timeouts, id: string, es: seq<Event>, from: int, now: int)
    requires id in v && id != "" && v[id].pending
    requires ClockRuns(es, from, now) && LeavesAlone(es, id)
    ensures Alive(Run(v, t, es), t, id, now) <==> now - v[id].created <= PENDING_TTL
    decreases |es|
  {
    if es != [] {
      var e, rest, v' := es[0], es[1..], Step(v, t, es[0]);
      assert LeavesAlone(rest, id) by { assert forall i | 0 <= i < |rest| :: rest[i] == es[i + 1]; }
      assert !(e.Rotated? && (e.id == id || e.newId == id)) && !(e.Opened? && e.id == id)
        && !(e.Dropped? && e.id == id);
      NowIsLast(rest, e.at, now);
      if id in v' {
        PendingLifetime(v', t, id, rest, e.at, now);
      } else {
        GoneStaysGone(v', t, id, rest, now);
      }
    }
  }

  // ---- no key lingers ----

  /** The last instant at which a session still answers, unless it is used again. */
  function Deadline(s: View, t: Timeouts): int {
    if s.pending then s.created + PENDING_TTL
    else if s.lastSeen + t.idle <= s.created + t.max then s.lastSeen + t.idle else s.created + t.max
  }

  lemma DeadlineExact(s: View, t: Timeouts, now: int)
    ensures s.Expired(t.idle, t.max, now) <==> Deadline(s, t) < now
  {
  }

  /** Never more than `period` without a sweep. */
  predicate TidiedEvery(es: seq<Event>, lastTidy: int, period: nat, to: int)
    decreases |es|
  {
    if es == [] then to <= lastTidy + period
    else es[0].at <= lastTidy + period && TidiedEvery(es[1..], if es[0].Tidied? then es[0].at else lastTidy, period, to)
  }

  lemma {:induction false} DeadlinesHold(v: Views, t: Timeouts, es: seq<Event>, from: int, lastTidy: int, period: nat,
        now: int)
    requires 0 <= t.idle && 0 <= t.max && lastTidy <= from
    requires forall id | id in v :: lastTidy <= Deadline(v[id], t) && v[id].lastSeen <= from
    requires ClockRuns(es, from, now) && TidiedEvery(es, lastTidy, period, now)
    ensures forall id | id in Run(v, t, es) :: now <= Deadline(Run(v, t, es)[id], t) + period
    decreases |es|
  {
    if es != [] {
      var e, v' := es[0], Step(v, t, es[0]);
      var tidy := if e.Tidied? then e.at else lastTidy;
      StepKeepsDeadlines(v, t, e, from, lastTidy);
      DeadlinesHold(v', t, es[1..], e.at, tidy, period, now);
    }
  }

  lemma StepKeepsDeadlines(v: Views, t: Timeouts, e: Event, from: int, lastTidy: int)
    requires 0 <= t.idle && 0 <= t.max && lastTidy <= from <= e.at
    requires forall id | id in v :: lastTidy <= Deadline(v[id], t) && v[id].lastSeen <= from
    ensures var tidy := if e.Tidied? then e.at else lastTidy; var v' := Step(v, t, e);
      forall id | id in v' :: tidy <= Deadline(v'[id], t) && v'[id].lastSeen <= e.at
  {
  }

  /** With a sweep every `period`, nothing is in the map that had expired more than
      a period ago, asked for or not. */
  lemma NothingLingers(v: Views, t: Timeouts, es: seq<Event>, from: int, lastTidy: int, period: nat, now: int)
    requires 0 <= t.idle && 0 <= t.max && lastTidy <= from
    requires forall id | id in v :: !v[id].Expired(t.idle, t.max, lastTidy) && v[id].lastSeen <= from
    requires ClockRuns(es, from, now) && TidiedEvery(es, lastTidy, period, now)
    ensures forall id | id in Run(v, t, es) :: !Run(v, t, es)[id].Expired(t.idle, t.max, now - period)
  {
    forall id | id in v ensures lastTidy <= Deadline(v[id], t) {
      DeadlineExact(v[id], t, lastTidy);
    }
    DeadlinesHold(v, t, es, from, lastTidy, period, now);
    forall id | id in Run(v, t, es) ensures !Run(v, t, es)[id].Expired(t.idle, t.max, now - period) {
      DeadlineExact(Run(v, t, es)[id], t, now - period);
    }
  }
}
