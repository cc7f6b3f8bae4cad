/** Throttling of failed unlock attempts: a bucket per address and a global one.
    Times are nanoseconds since the zero time, so a bucket never used started at 0. */
module Limiting {
  import opened Common
  import opened Numbers

  const MINUTE := 60_000_000_000
  const MAX_IP := 5
  const MAX_ALL := 20
  const WINDOW := 10 * MINUTE
  const LOCKOUT := 15 * MINUTE

  datatype Bucket = Bucket(fails: nat, first: int, until: int)

  datatype Limits = Limits(perIP: map<string, Bucket>, global: Bucket)

  const NEW_LIMITS := Limits(map[], Bucket(0, 0, 0))

  function AllowedAt(l: Limits, ip: string, now: int): bool {
    l.global.until <= now && (ip in l.perIP ==> l.perIP[ip].until <= now)
  }

  /** One more failure in a bucket, which starts afresh when it has decayed. */
  function Hit(b: Bucket, now: int, max: nat): Bucket {
    var live := if now - b.first > WINDOW then Bucket(0, now, 0) else b;
    var hit := live.(fails := live.fails + 1);
    if hit.fails >= max then hit.(until := now + LOCKOUT) else hit
  }

  function AfterFail(l: Limits, ip: string, now: int): Limits {
    Limits(
      l.perIP[ip := Hit(if ip in l.perIP then l.perIP[ip] else Bucket(0, now, 0), now, MAX_IP)],
      Hit(l.global, now, MAX_ALL))
  }

  function AfterReset(l: Limits, ip: string): Limits {
    l.(perIP := l.perIP - {ip})
  }

  predicate Decayed(b: Bucket, now: int) {
    b.until < now && now - b.first > WINDOW
  }

  function AfterSweep(l: Limits, now: int): Limits {
    l.(perIP := map ip | ip in l.perIP && !Decayed(l.perIP[ip], now) :: l.perIP[ip])
  }

  function WaitAt(l: Limits, ip: string, now: int): int {
    var until := if ip in l.perIP && l.perIP[ip].until > l.global.until then l.perIP[ip].until else l.global.until;
    if until > now then until - now else 0
  }

  /** The limiter object. */
  class Limiter {
    var perIP: map<string, Bucket>
    var global: Bucket

    function State(): Limits
      reads this
    {
      Limits(perIP, global)
    }

    constructor ()
      ensures State() == NEW_LIMITS
    {
      perIP, global := map[], Bucket(0, 0, 0);
    }

    method Allowed(ip: string, now: int) returns (ok: bool)
      ensures ok == AllowedAt(State(), ip, now)
    {
      if now < global.until {
        return false;
      }
      if ip in perIP && now < perIP[ip].until {
        return false;
      }
      return true;
    }

    method Fail(ip: string, now: int)
      modifies this
      ensures State() == AfterFail(old(State()), ip, now)
    {
      if ip !in perIP || now - perIP[ip].first > WINDOW {
        perIP := perIP[ip := Bucket(0, now, 0)];
      }
      var b := perIP[ip];
      b := b.(fails := b.fails + 1);
      if b.fails >= MAX_IP {
        b := b.(until := now + LOCKOUT);
      }
      perIP := perIP[ip := b];

      if now - global.first > WINDOW {
        global := Bucket(0, now, 0);
      }
      global := global.(fails := global.fails + 1);
      if global.fails >= MAX_ALL {
        global := global.(until := now + LOCKOUT);
      }
    }

    method Reset(ip: string)
      modifies this
      ensures State() == AfterReset(old(State()), ip)
    {
      perIP := perIP - {ip};
    }

    method Sweep(now: int)
      modifies this
      ensures State() == AfterSweep(old(State()), now)
    {
      var ips := Enumerate(perIP.Keys);
      for i := 0 to |ips|
        invariant global == old(global)
        invariant perIP == map ip | ip in old(perIP) && !(ip in ips[..i] && Decayed(old(perIP)[ip], now)) ::
          old(perIP)[ip]
      {
        var ip := ips[i];
        assert ip in old(perIP) && ip !in ips[..i];
        assert ips[..i + 1] == ips[..i] + [ip];
        if perIP[ip].until < now && now - perIP[ip].first > WINDOW {
          perIP := perIP - {ip};
        }
      }
      assert ips[..|ips|] == ips;
    }

    method RetryAfter(ip: string, now: int) returns (d: int)
      ensures d == WaitAt(State(), ip, now)
    {
      var until := global.until;
      if ip in perIP && perIP[ip].until > until {
        until := perIP[ip].until;
      }
      return if until > now then until - now else 0;
    }
  }

  /** At any instant there is nothing to wait for exactly when an attempt is allowed,
      and waiting as long as told is exactly enough if nothing else happens. */
  lemma WaitExactly(l: Limits, ip: string, now: int, later: int)
    requires now <= later
    ensures WaitAt(l, ip, now) == 0 <==> AllowedAt(l, ip, now)
    ensures AllowedAt(l, ip, later) <==> later >= now + WaitAt(l, ip, now)
  {
  }

  // ---- sweeping is unobservable ----

  datatype Event =
    | Ask(ip: string, at: int)
    | Wait(ip: string, at: int)
    | Failed(ip: string, at: int)
    | Cleared(ip: string, at: int)
    | Swept(at: int)

  /** What a caller learns: the answer, the wait, or the lockouts a failure leaves. */
  datatype Sight = Answer(ok: bool) | Delay(d: int) | Lockouts(ip: int, all: int) | Silent

  function Step(l: Limits, e: Event): Limits {
    match e
    case Failed(ip, at) => AfterFail(l, ip, at)
    case Cleared(ip, _) => AfterReset(l, ip)
    case Swept(at) => AfterSweep(l, at)
    case _ => l
  }

  function Seen(l: Limits, e: Event): Sight
    requires !e.Swept?
  {
    match e
    case Ask(ip, at) => Answer(AllowedAt(l, ip, at))
    case Wait(ip, at) => Delay(WaitAt(l, ip, at))
    case Failed(ip, at) => Lockouts(AfterFail(l, ip, at).perIP[ip].until, AfterFail(l, ip, at).global.until)
    case Cleared(_, _) => Silent
  }

  function Sights(l: Limits, es: seq<Event>): seq<Sight>
    decreases |es|
  {
    if es == [] then []
    else (if es[0].Swept? then [] else [Seen(l, es[0])]) + Sights(Step(l, es[0]), es[1..])
  }

  function WithoutSweeps(es: seq<Event>): seq<Event> {
    if es == [] then [] else (if es[0].Swept? then [] else [es[0]]) + WithoutSweeps(es[1..])
  }

  predicate ClockRuns(es: seq<Event>, from: int) {
    es != [] ==> from <= es[0].at && ClockRuns(es[1..], es[0].at)
  }

  /** Equal but for buckets that have decayed. */
  ghost predicate SameButDecayed(swept: Limits, full: Limits, now: int) {
    && swept.global == full.global
    && swept.perIP.Keys <= full.perIP.Keys
    && (forall ip | ip in swept.perIP :: swept.perIP[ip] == full.perIP[ip])
    && (forall ip | ip in full.perIP && ip !in swept.perIP :: Decayed(full.perIP[ip], now))
  }

  /** Sweeps inserted anywhere in a run change no answer, no wait and no lockout. */
  lemma SweepsUnseen(l: Limits, es: seq<Event>, from: int)
    requires ClockRuns(es, from)
    ensures Sights(l, es) == Sights(l, WithoutSweeps(es))
  {
    SweptRunsAgree(l, l, es, from);
  }

  lemma {:induction false} SweptRunsAgree(swept: Limits, full: Limits, es: seq<Event>, from: int)
    requires ClockRuns(es, from) && SameButDecayed(swept, full, from)
    ensures Sights(swept, es) == Sights(full, WithoutSweeps(es))
    decreases |es|
  {
    if es != [] {
      var e := es[0];
      if e.Swept? {
        SweptRunsAgree(Step(swept, e), full, es[1..], e.at);
        assert Sights(swept, es) == Sights(Step(swept, e), es[1..]);
        assert WithoutSweeps(es) == WithoutSweeps(es[1..]);
      } else {
        StepAgrees(swept, full, e, from);
        SweptRunsAgree(Step(swept, e), Step(full, e), es[1..], e.at);
        assert WithoutSweeps(es) == [e] + WithoutSweeps(es[1..]);
        assert WithoutSweeps(es)[1..] == WithoutSweeps(es[1..]);
      }
    }
  }

  lemma StepAgrees(swept: Limits, full: Limits, e: Event, from: int)
    requires from <= e.at && SameButDecayed(swept, full, from) && !e.Swept?
    ensures Seen(swept, e) == Seen(full, e) && SameButDecayed(Step(swept, e), Step(full, e), e.at)
  {
  }

  // ---- an address alone ----

  function StepAll(l: Limits, es: seq<Event>): Limits
    decreases |es|
  {
    if es == [] then l else Step(StepAll(l, es[..|es| - 1]), es[|es| - 1])
  }

  /** The failures of an address in a run, and the last time one came. */
  function FailsOf(es: seq<Event>, ip: string): nat
    decreases |es|
  {
    if es == [] then 0
    else
      var n := |es| - 1;
      FailsOf(es[..n], ip) + if es[n].Failed? && es[n].ip == ip then 1 else 0
  }

  function LastFail(es: seq<Event>, ip: string): int
    requires FailsOf(es, ip) > 0
    decreases |es|
  {
    var n := |es| - 1;
    if es[n].Failed? && es[n].ip == ip then es[n].at else LastFail(es[..n], ip)
  }

  /** Everything that happens within a window of its first event, without a success
      of the address. */
  predicate OneWindow(es: seq<Event>, ip: string, t0: int) {
    && es != [] && es[0] == Failed(ip, t0)
    && (forall i | 0 <= i < |es| :: t0 <= es[i].at <= t0 + WINDOW)
    && (forall i | 0 <= i < |es| :: !(es[i].Cleared? && es[i].ip == ip))
  }

  /** From a first failure on, in any state of the limiter and whatever others do, the
      failures of an address within a window add up, and lock it exactly from the
      fifth on, each for the whole lockout. */
  lemma {:induction false} FifthFailureLocks(l: Limits, ip: string, es: seq<Event>, t0: int)
    requires OneWindow(es, ip, t0)
    requires ip in l.perIP ==> t0 - l.perIP[ip].first > WINDOW
    ensures FailsOf(es, ip) > 0 && ip in StepAll(l, es).perIP
    ensures StepAll(l, es).perIP[ip] ==
      Bucket(FailsOf(es, ip), t0, if FailsOf(es, ip) >= 5 then LastFail(es, ip) + 15 * MINUTE else 0)
    decreases |es|
  {
    var n := |es| - 1;
    if n > 0 {
      FifthFailureLocks(l, ip, es[..n], t0);
    } else {
      assert es[..0] == [];
    }
  }

  /** So between the last of them and the end of its lockout the address alone is
      turned away exactly when there were five. */
  lemma FiveAreTooMany(l: Limits, ip: string, es: seq<Event>, t0: int, now: int)
    requires OneWindow(es, ip, t0)
    requires ip in l.perIP ==> t0 - l.perIP[ip].first > WINDOW
    requires FailsOf(es, ip) > 0 ==> LastFail(es, ip) <= now < LastFail(es, ip) + 15 * MINUTE
    requires 0 <= now && StepAll(l, es).global.until <= now
    ensures AllowedAt(StepAll(l, es), ip, now) <==> FailsOf(es, ip) < 5
  {
    FifthFailureLocks(l, ip, es, t0);
  }

  // ---- starting over ----

  /** The address has no bucket any more; the others and the global one stay. */
  ghost predicate Forgiven(l: Limits, l': Limits, ip: string) {
    && ip !in l'.perIP && l'.global == l.global
    && (forall k | k != ip :: k in l'.perIP <==> k in l.perIP)
    && (forall k | k in l.perIP && k != ip :: l'.perIP[k] == l.perIP[k])
  }

  lemma ResetForgives(l: Limits, ip: string, at: int)
    ensures Forgiven(l, Step(l, Cleared(ip, at)), ip)
  {
  }

  lemma {:induction false} StepAllBoth(l: Limits, a: seq<Event>, b: seq<Event>)
    ensures StepAll(l, a + b) == StepAll(StepAll(l, a), b)
    decreases |b|
  {
    hide Step;
    if b == [] {
      assert a + b == a;
    } else {
      var n := |b| - 1;
      assert (a + b)[..|a + b| - 1] == a + b[..n];
      StepAllBoth(l, a, b[..n]);
    }
  }

  /** An address without a bucket gets none before it fails. */
  lemma {:induction false} NoBucketBeforeFailing(l: Limits, ip: string, es: seq<Event>)
    requires ip !in l.perIP && forall i | 0 <= i < |es| :: !(es[i].Failed? && es[i].ip == ip)
    ensures ip !in StepAll(l, es).perIP
    decreases |es|
  {
    if es != [] {
      NoBucketBeforeFailing(l, ip, es[..|es| - 1]);
    }
  }

  /** After a success of the address at `k` only the failures since count, of which the
      first is at `j`: from any state, whatever came before and whatever others do, there
      is no bucket before that one, and then one that counts from it. */
  lemma OnlyFailuresSinceCount(l: Limits, ip: string, es: seq<Event>, k: nat, j: nat)
    requires k < j <= |es| && es[k].Cleared? && es[k].ip == ip
    requires forall i | k < i < j :: !(es[i].Failed? && es[i].ip == ip)
    requires j < |es| ==> OneWindow(es[j..], ip, es[j].at)
    ensures ip !in StepAll(l, es[..j]).perIP
    ensures j < |es| ==>
      var l', since := StepAll(l, es), FailsOf(es[j..], ip);
      && since > 0 && ip in l'.perIP
      && l'.perIP[ip] == Bucket(since, es[j].at, if since >= 5 then LastFail(es[j..], ip) + 15 * MINUTE else 0)
  {
    var cleared := StepAll(l, es[..k + 1]);
    assert es[..k + 1][..k] == es[..k] && es[..j] == es[..k + 1] + es[k + 1..j] && es == es[..j] + es[j..];
    StepAllBoth(l, es[..k + 1], es[k + 1..j]);
    assert ip !in cleared.perIP;
    NoBucketBeforeFailing(cleared, ip, es[k + 1..j]);
    StepAllBoth(l, es[..j], es[j..]);
    hide StepAll, OneWindow, Step;
    if j < |es| {
      FifthFailureLocks(StepAll(l, es[..j]), ip, es[j..], es[j].at);
    }
  }

  /** So the address is turned away exactly from the fifth failure since its success on. */
  lemma FiveSinceAreTooMany(l: Limits, ip: string, es: seq<Event>, k: nat, j: nat, now: int)
    requires k < j < |es| && es[k].Cleared? && es[k].ip == ip
    requires forall i | k < i < j :: !(es[i].Failed? && es[i].ip == ip)
    requires OneWindow(es[j..], ip, es[j].at)
    requires FailsOf(es[j..], ip) > 0 ==> LastFail(es[j..], ip) <= now < LastFail(es[j..], ip) + 15 * MINUTE
    requires 0 <= now && StepAll(l, es).global.until <= now
    ensures AllowedAt(StepAll(l, es), ip, now) <==> FailsOf(es[j..], ip) < 5
  {
    OnlyFailuresSinceCount(l, ip, es, k, j);
    hide StepAll, OneWindow;
  }

  // ---- the throttle bound ----

  /** The limiter with the attempts now between their check and their outcome, and
      two meters: failures counted, and starts of the global bucket. */
  datatype System = System(l: Limits, inFlight: nat, failures: nat, starts: nat)

  const NEW_SYSTEM := System(NEW_LIMITS, 0, 0, 0)

  datatype Move =
    | Begin(ip: string, at: int)   // the check; the attempt goes on only if allowed
    | EndFailed(ip: string, at: int)
    | EndCleared(ip: string, at: int)
    | EndPending(ip: string, at: int) // right passphrase, code still outstanding
    | Tidy(at: int)

  function Moved(s: System, m: Move): System {
    match m
    case Begin(ip, at) => if AllowedAt(s.l, ip, at) then s.(inFlight := s.inFlight + 1) else s
    case EndFailed(ip, at) =>
      if s.inFlight == 0 then s
      else
        System(AfterFail(s.l, ip, at), s.inFlight - 1, s.failures + 1,
               s.starts + if at - s.l.global.first > WINDOW then 1 else 0)
    case EndCleared(ip, at) =>
      if s.inFlight == 0 then s else s.(l := AfterReset(s.l, ip), inFlight := s.inFlight - 1)
    case EndPending(ip, at) => if s.inFlight == 0 then s else s.(inFlight := s.inFlight - 1)
    case Tidy(at) => s.(l := AfterSweep(s.l, at))
  }

  function MovedAll(s: System, ms: seq<Move>): System
    decreases |ms|
  {
    if ms == [] then s else MovedAll(Moved(s, ms[0]), ms[1..])
  }

  /** Times run forward from `from` and end by `to`; never more than `k` in flight. */
  predicate Orderly(s: System, ms: seq<Move>, from: int, to: int, k: nat)
    decreases |ms|
  {
    && from <= to
    && s.inFlight <= k
    && (ms != [] ==> from <= ms[0].at && Orderly(Moved(s, ms[0]), ms[1..], ms[0].at, to, k))
  }

  /** The most failures one filling of the global bucket can count. */
  function Cap(k: nat): int {
    MAX_ALL + k - 1
  }

  ghost predicate Metered(s: System, t0: int, now: int, k: nat) {
    var g := s.l.global;
    && 1 <= k && s.inFlight <= k && WINDOW < t0 <= now
    && g.first <= now && g.fails <= Cap(k)
    && (s.starts == 0 ==> s.failures == 0 && g == Bucket(0, 0, 0))
    && (s.starts > 0 ==>
         s.failures <= (s.starts - 1) * Cap(k) + g.fails && t0 + (s.starts - 1) * (WINDOW + 1) <= g.first)
    && (g.fails >= MAX_ALL ==> g.until >= g.first + LOCKOUT)
    && (g.fails >= MAX_ALL && now - g.first <= WINDOW ==> g.fails + s.inFlight <= Cap(k))
  }

  lemma MoveKeepsMetered(s: System, m: Move, t0: int, now: int, k: nat)
    requires Metered(s, t0, now, k) && now <= m.at && Moved(s, m).inFlight <= k
    ensures Metered(Moved(s, m), t0, m.at, k)
  {
    if m.EndFailed? && s.inFlight > 0 {
      FailKeepsMetered(s, m, t0, now, k);
    }
  }

  lemma FailKeepsMetered(s: System, m: Move, t0: int, now: int, k: nat)
    requires Metered(s, t0, now, k) && now <= m.at && m.EndFailed? && s.inFlight > 0
    ensures Metered(Moved(s, m), t0, m.at, k)
  {
    var g, s' := s.l.global, Moved(s, m);
    if m.at - g.first > WINDOW && s.starts > 0 {
      assert s'.starts == s.starts + 1;
      OneMoreTime(s.starts - 1, Cap(k));
      OneMoreTime(s.starts - 1, WINDOW + 1);
    }
  }

  lemma {:induction false} RunKeepsMetered(s: System, ms: seq<Move>, t0: int, from: int, to: int, k: nat)
    requires Metered(s, t0, from, k) && Orderly(s, ms, from, to, k)
    ensures Metered(MovedAll(s, ms), t0, to, k)
    decreases |ms|
  {
    if ms != [] {
      MoveKeepsMetered(s, ms[0], t0, from, k);
      RunKeepsMetered(Moved(s, ms[0]), ms[1..], t0, ms[0].at, to, k);
    }
  }

  /** Over any run of length T with at most K attempts overlapping, whatever
      addresses they come from: no filling of the global bucket counts more than
      maxAll + K - 1 failures, and the run has at most that many per started window. */
  lemma FailuresBounded(ms: seq<Move>, t0: int, T: nat, k: nat)
    requires 1 <= k && WINDOW < t0
    requires Orderly(NEW_SYSTEM, ms, t0, t0 + T, k)
    ensures MovedAll(NEW_SYSTEM, ms).l.global.fails <= MAX_ALL + k - 1
    ensures MovedAll(NEW_SYSTEM, ms).failures <= (MAX_ALL + k - 1) * (1 + T / WINDOW)
  {
    RunKeepsMetered(NEW_SYSTEM, ms, t0, t0, t0 + T, k);
    MetersBound(MovedAll(NEW_SYSTEM, ms), t0, T, k);
  }

  lemma MetersBound(s: System, t0: int, T: nat, k: nat)
    requires Metered(s, t0, t0 + T, k)
    ensures s.failures <= (MAX_ALL + k - 1) * (1 + T / WINDOW)
  {
    if s.starts > 0 {
      assert (s.starts - 1) * (WINDOW + 1) == (s.starts - 1) * WINDOW + (s.starts - 1);
      BoundFromMeters(s.starts - 1, s.failures, Cap(k), s.l.global.fails, T);
    } else {
      ProductMonotone(0, 1 + T / WINDOW, Cap(k));
    }
  }

  lemma BoundFromMeters(full: nat, failures: nat, cap: int, last: int, T: nat)
    requires 0 <= cap && last <= cap && failures <= full * cap + last && full * WINDOW <= T
    ensures failures <= cap * (1 + T / WINDOW)
  {
    QuotientBounds(full, WINDOW, T);
    ProductMonotone(full, T / WINDOW, cap);
    assert cap * (1 + T / WINDOW) == T / WINDOW * cap + cap;
  }

  // ---- when a failure cuts a standing lockout short ----

  /** What holds of every bucket in every run. */
  ghost predicate Sane(b: Bucket, now: int, max: nat) {
    b.first <= now && (0 < b.until ==> b.fails >= max) && 0 <= b.until <= now + LOCKOUT
  }

  ghost predicate SaneLimits(l: Limits, now: int) {
    Sane(l.global, now, MAX_ALL) && forall ip | ip in l.perIP :: Sane(l.perIP[ip], now, MAX_IP)
  }

  lemma {:induction false} RunIsSane(s: System, ms: seq<Move>, from: int, to: int, k: nat)
    requires 0 <= from && SaneLimits(s.l, from) && Orderly(s, ms, from, to, k)
    ensures SaneLimits(MovedAll(s, ms).l, to)
    decreases |ms|
  {
    if ms != [] {
      RunIsSane(Moved(s, ms[0]), ms[1..], ms[0].at, to, k);
    }
  }

  /** In every state that a run reaches: a failure that meets a standing lockout, of
      all or of its address, keeps or extends it exactly when it lands within the
      window of the bucket's start. */
  lemma LockoutStandsExactly(ms: seq<Move>, t0: int, now: int, k: nat, ip: string)
    requires 0 <= t0 && Orderly(NEW_SYSTEM, ms, t0, now, k)
    ensures var l := MovedAll(NEW_SYSTEM, ms).l; var l' := AfterFail(l, ip, now);
      && (now < l.global.until ==>
            (l'.global.until >= l.global.until <==> now - l.global.first <= WINDOW))
      && (ip in l.perIP && now < l.perIP[ip].until ==>
            (l'.perIP[ip].until >= l.perIP[ip].until <==> now - l.perIP[ip].first <= WINDOW))
  {
    RunIsSane(NEW_SYSTEM, ms, t0, now, k);
  }

  // A run in which a late failure does so: nineteen failures at one time, then two
  // attempts that overlap near the end of the window.

  const START := 100 * MINUTE
  const ADMITTED := 109 * MINUTE + 54_000_000_000
  const LOCKED := 109 * MINUTE + 57_000_000_000
  const LATE := 110 * MINUTE + 6_000_000_000

  function Peer(i: nat): string {
    seq(i, _ => 'a')
  }

  /** The attempts from the i-th to the nineteenth, and then `rest`. */
  function FailingFrom(i: nat, rest: seq<Move>): seq<Move>
    requires i <= MAX_ALL - 1
    decreases MAX_ALL - i
  {
    if i == MAX_ALL - 1 then rest
    else [Begin(Peer(i), START), EndFailed(Peer(i), START)] + FailingFrom(i + 1, rest)
  }

  const OVERLAP := [Begin("x", ADMITTED), Begin("y", ADMITTED), EndFailed("x", LOCKED)]

  ghost predicate FailedTimes(s: System, i: nat) {
    && s.inFlight == 0
    && s.l.global == (if i == 0 then Bucket(0, 0, 0) else Bucket(i, START, 0))
    && forall ip | ip in s.l.perIP :: s.l.perIP[ip] == Bucket(1, START, 0) && exists j: nat :: j < i && ip == Peer(j)
  }

  lemma OneMoreFailure(s: System, i: nat)
    requires i < MAX_ALL - 1 && FailedTimes(s, i)
    ensures FailedTimes(Moved(Moved(s, Begin(Peer(i), START)), EndFailed(Peer(i), START)), i + 1)
    ensures s.inFlight <= 2 && Moved(s, Begin(Peer(i), START)).inFlight <= 2
  {
    assert |Peer(i)| == i;
    assert Peer(i) !in s.l.perIP;
  }

  lemma {:induction false} FailingRuns(s: System, i: nat, rest: seq<Move>)
    requires i <= MAX_ALL - 1 && FailedTimes(s, i)
    ensures FailedTimes(MovedAll(s, FailingFrom(i, [])), MAX_ALL - 1)
    ensures MovedAll(s, FailingFrom(i, rest)) == MovedAll(MovedAll(s, FailingFrom(i, [])), rest)
    ensures Orderly(MovedAll(s, FailingFrom(i, [])), rest, START, LATE, 2) ==>
      Orderly(s, FailingFrom(i, rest), START, LATE, 2)
    decreases MAX_ALL - i
  {
    if i < MAX_ALL - 1 {
      var b, e := Begin(Peer(i), START), EndFailed(Peer(i), START);
      var s' := Moved(Moved(s, b), e);
      OneMoreFailure(s, i);
      hide Moved, FailedTimes;
      FailingRuns(s', i + 1, rest);
      TwoMoves(s, b, e, FailingFrom(i + 1, rest));
      TwoMoves(s, b, e, FailingFrom(i + 1, []));
    }
  }

  lemma TwoMoves(s: System, b: Move, e: Move, rest: seq<Move>)
    ensures MovedAll(s, [b, e] + rest) == MovedAll(Moved(Moved(s, b), e), rest)
    ensures Orderly(s, [b, e] + rest, b.at, LATE, 2) <==>
      b.at <= e.at && b.at <= LATE && s.inFlight <= 2 && Moved(s, b).inFlight <= 2
        && Orderly(Moved(Moved(s, b), e), rest, e.at, LATE, 2)
  {
    assert ([b, e] + rest)[1..] == [e] + rest && ([e] + rest)[1..] == rest;
  }

  /** From a new limiter and with only two attempts ever in flight: the lockout set by
      one failure stands, and the other, admitted before it and landing nine
      seconds later, ends it fourteen minutes early. */
  lemma LateFailureUnlocks()
    ensures var ms := FailingFrom(0, OVERLAP);
      && Orderly(NEW_SYSTEM, ms, START, LATE, 2)
      && !AllowedAt(MovedAll(NEW_SYSTEM, ms).l, "z", LATE)
      && MovedAll(NEW_SYSTEM, ms).inFlight == 1
      && AllowedAt(Moved(MovedAll(NEW_SYSTEM, ms), EndFailed("y", LATE)).l, "z", LATE)
  {
    FailingRuns(NEW_SYSTEM, 0, OVERLAP);
    OverlapUnlocks(MovedAll(NEW_SYSTEM, FailingFrom(0, [])));
  }

  lemma OverlapUnlocks(s: System)
    requires FailedTimes(s, MAX_ALL - 1)
    ensures Orderly(s, OVERLAP, START, LATE, 2)
    ensures var s' := MovedAll(s, OVERLAP);
      && s'.inFlight == 1 && !AllowedAt(s'.l, "z", LATE)
      && AllowedAt(Moved(s', EndFailed("y", LATE)).l, "z", LATE)
  {
    var x, y, e := OVERLAP[0], OVERLAP[1], OVERLAP[2];
    assert OVERLAP == [x, y] + [e] && [e] == [e] + [];
    var s2 := Moved(Moved(s, x), y);
    TwoMoves(s, x, y, [e]);
    assert [e][1..] == [];
    assert MovedAll(s2, [e]) == Moved(s2, e);
  }

  /** With attempts one at a time no failure ever meets a standing global lockout,
      so none is cut short. */
  ghost predicate NeverMeetsLockout(s: System, ms: seq<Move>)
    decreases |ms|
  {
    ms != [] ==>
      && (ms[0].EndFailed? && s.inFlight > 0 ==> s.l.global.until <= ms[0].at)
      && NeverMeetsLockout(Moved(s, ms[0]), ms[1..])
  }

  lemma {:induction false} SequentialAttemptsKeepLockouts(s: System, ms: seq<Move>, from: int, to: int)
    requires Orderly(s, ms, from, to, 1)
    requires s.inFlight == 1 ==> s.l.global.until <= from
    ensures NeverMeetsLockout(s, ms)
    decreases |ms|
  {
    if ms != [] {
      SequentialAttemptsKeepLockouts(Moved(s, ms[0]), ms[1..], ms[0].at, to);
    }
  }
}
