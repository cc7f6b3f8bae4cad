/** Code verifications that overlap. A verification touches the database twice: it
    reads the vault row, against which it checks the code, and it writes the step
    it consumed; other verifications may fall between. */
module CodeRace {
  import opened Common
  import opened Aead
  import opened Samples
  import opened Tables
  import opened Totp
  import opened VaultSpec
  import OneTime

  // ---- the two halves of a verification ----

  /** The step at which the code is accepted against the row as it stands, if any. */
  function Checked(st: State, codes: CodeFn, dek: Bytes, code: string, now: Clock): Result<Option<int>> {
    if st.vault.None? then Err(NotFound)
    else if st.rows.totp.None? then Err(if UsableKey(Raw(dek)) then Decrypt else BadKey)
    else
      match Aead.Open(Raw(dek), st.rows.totp.value, RoleAad(TOTP_CELL))
      case Err(e) => Err(e)
      case Ok(secret) =>
        match Validate(codes, secret, code, now, st.vault.value.totpLast)
        case Broken => Err(BadSecret)
        case Refused => Ok(None)
        case Accepted(step) => Ok(Some(step))
  }

  /** The write is unconditional: nothing looks at the step stored meanwhile. */
  function Noted(st: State, step: int): State {
    if st.vault.None? then st else st.(vault := Some(st.vault.value.(totpLast := step)))
  }

  lemma WholeIsCheckThenNote(st: State, codes: CodeFn, dek: Bytes, code: string, now: Clock)
    ensures VerifyLoginTotp(st, codes, dek, code, now) ==
      match Checked(st, codes, dek, code, now)
      case Err(e) => (st, Err(e))
      case Ok(None) => (st, Ok(false))
      case Ok(Some(step)) => (Noted(st, step), Ok(true))
  {
    hide Validate;
  }

  // ---- schedules ----

  datatype Turn = Look(call: nat) | Note(call: nat)

  datatype Input = Input(dek: Bytes, code: string, clock: Clock)

  /** A call that looked holds the step it will write, or is over. */
  datatype World = World(st: State, calls: map<nat, Option<int>>)

  /** One turn, and the step it consumes, if it does. */
  function Next(w: World, codes: CodeFn, inputs: nat -> Input, t: Turn): (World, Option<int>) {
    match t
    case Look(i) =>
      if i in w.calls then (w, None)
      else
        var r := Checked(w.st, codes, inputs(i).dek, inputs(i).code, inputs(i).clock);
        (w.(calls := w.calls[i := if r.Ok? then r.value else None]), None)
    case Note(i) =>
      if i !in w.calls || w.calls[i].None? then (w, None)
      else (World(Noted(w.st, w.calls[i].value), w.calls[i := None]), w.calls[i])
  }

  function After(w: World, codes: CodeFn, inputs: nat -> Input, ts: seq<Turn>): World
    decreases |ts|
  {
    if ts == [] then w else Next(After(w, codes, inputs, ts[..|ts| - 1]), codes, inputs, ts[|ts| - 1]).0
  }

  /** The steps consumed by a schedule, in order. */
  function Consumed(w: World, codes: CodeFn, inputs: nat -> Input, ts: seq<Turn>): seq<int>
    decreases |ts|
  {
    if ts == [] then []
    else
      var n := |ts| - 1;
      var step := Next(After(w, codes, inputs, ts[..n]), codes, inputs, ts[n]).1;
      Consumed(w, codes, inputs, ts[..n]) + if step.Some? then [step.value] else []
  }

  lemma OneTurnMore(w: World, codes: CodeFn, inputs: nat -> Input, ts: seq<Turn>, n: nat)
    requires n < |ts|
    ensures var (w', step) := Next(After(w, codes, inputs, ts[..n]), codes, inputs, ts[n]);
      && After(w, codes, inputs, ts[..n + 1]) == w'
      && Consumed(w, codes, inputs, ts[..n + 1]) ==
           Consumed(w, codes, inputs, ts[..n]) + if step.Some? then [step.value] else []
  {
    assert ts[..n + 1][..n] == ts[..n];
    hide Next;
  }

  /** Every call looks once, and notes at most once, later. */
  ghost predicate Schedule(ts: seq<Turn>) {
    && (forall a, b | 0 <= a < b < |ts| :: ts[a] != ts[b])
    && (forall c | 0 <= c < |ts| && ts[c].Note? :: exists a :: 0 <= a < c && ts[a] == Look(ts[c].call))
  }

  /** Another call's write falls between the read and the write of one. */
  ghost predicate Inside(ts: seq<Turn>, a: int, b: int, c: int) {
    0 <= a < b < c < |ts| && ts[a].Look? && ts[b].Note? && ts[c] == Note(ts[a].call)
  }

  ghost predicate Serial(ts: seq<Turn>) {
    forall a, b, c :: !Inside(ts, a, b, c)
  }

  /** No call has begun, and a passphrase unlocks the vault. */
  ghost predicate Begins(w: World) {
    w.calls == map[] && exists passphrase :: Unlock(w.st, passphrase).Ok?
  }

  /** The consumed steps strictly increase, whatever secret, codes and times. */
  ghost predicate Safe(ts: seq<Turn>) {
    forall w: World, codes: CodeFn, inputs: nat -> Input | Begins(w) ::
      OneTime.Increasing(Consumed(w, codes, inputs, ts))
  }

  // ---- serial schedules use every step once ----

  /** Among the first `n` turns the call looked, and nobody has written since. */
  ghost predicate Undisturbed(ts: seq<Turn>, n: nat, i: nat)
    requires n <= |ts|
  {
    exists a :: 0 <= a < n && ts[a] == Look(i) && forall b | a < b < n :: !ts[b].Note?
  }

  ghost predicate StepsAhead(w: World, ts: seq<Turn>, n: nat, steps: seq<int>)
    requires n <= |ts|
  {
    && w.st.vault.Some?
    && OneTime.Increasing(steps)
    && (forall k | 0 <= k < |steps| :: steps[k] <= w.st.vault.value.totpLast)
    && (forall i | i in w.calls :: exists a :: 0 <= a < n && ts[a] == Look(i))
    && (forall i | i in w.calls && w.calls[i].Some? && Undisturbed(ts, n, i) ::
         w.st.vault.value.totpLast < w.calls[i].value)
  }

  lemma CheckedIsAhead(st: State, codes: CodeFn, input: Input)
    ensures var r := Checked(st, codes, input.dek, input.code, input.clock);
      r.Ok? && r.value.Some? ==> st.vault.Some? && st.vault.value.totpLast < r.value.value
  {
    if st.vault.Some? && st.rows.totp.Some? {
      var secret := Aead.Open(Raw(input.dek), st.rows.totp.value, RoleAad(TOTP_CELL));
      if secret.Ok? {
        var v := Validate(codes, secret.value, input.code, input.clock, st.vault.value.totpLast);
        if v.Accepted? {
          AcceptedExactly(codes, secret.value, input.code, input.clock, st.vault.value.totpLast, v.step);
        }
      }
    }
    hide Validate;
  }

  lemma TurnStaysAhead(w: World, codes: CodeFn, inputs: nat -> Input, ts: seq<Turn>, n: nat, steps: seq<int>)
    requires n < |ts| && Schedule(ts) && StepsAhead(w, ts, n, steps)
    requires ts[n].Note? ==> Undisturbed(ts, n, ts[n].call)
    ensures var (w', step) := Next(w, codes, inputs, ts[n]);
      StepsAhead(w', ts, n + 1, steps + if step.Some? then [step.value] else [])
  {
    var t, w' := ts[n], Next(w, codes, inputs, ts[n]).0;
    hide Checked;
    if t.Look? {
      CheckedIsAhead(w.st, codes, inputs(t.call));
    }
    forall i | i in w'.calls && w'.calls[i].Some? && Undisturbed(ts, n + 1, i)
      ensures w'.st.vault.value.totpLast < w'.calls[i].value
    {
      var a :| 0 <= a < n + 1 && ts[a] == Look(i) && forall b | a < b < n + 1 :: !ts[b].Note?;
      assert a < n ==> Undisturbed(ts, n, i);
    }
  }

  lemma NoteIsUndisturbed(ts: seq<Turn>, n: nat)
    requires Schedule(ts) && Serial(ts) && n < |ts| && ts[n].Note?
    ensures Undisturbed(ts, n, ts[n].call)
  {
    var a :| 0 <= a < n && ts[a] == Look(ts[n].call);
    forall b | a < b < n ensures !ts[b].Note? {
      assert !Inside(ts, a, b, n);
    }
  }

  lemma {:induction false} SerialStaysAhead(w: World, codes: CodeFn, inputs: nat -> Input, ts: seq<Turn>, n: nat)
    requires Schedule(ts) && Serial(ts) && w.calls == map[] && w.st.vault.Some? && n <= |ts|
    ensures StepsAhead(After(w, codes, inputs, ts[..n]), ts, n, Consumed(w, codes, inputs, ts[..n]))
  {
    StartsAhead(w, codes, inputs, ts);
    hide Next, StepsAhead, Schedule, Serial, After, Consumed;
    if n > 0 {
      OneTurnMore(w, codes, inputs, ts, n - 1);
      SerialStaysAhead(w, codes, inputs, ts, n - 1);
      if ts[n - 1].Note? {
        NoteIsUndisturbed(ts, n - 1);
      }
      TurnStaysAhead(After(w, codes, inputs, ts[..n - 1]), codes, inputs, ts, n - 1,
        Consumed(w, codes, inputs, ts[..n - 1]));
    } else {
      assert ts[..0] == [];
    }
  }

  lemma StartsAhead(w: World, codes: CodeFn, inputs: nat -> Input, ts: seq<Turn>)
    requires w.calls == map[] && w.st.vault.Some?
    ensures StepsAhead(After(w, codes, inputs, []), ts, 0, Consumed(w, codes, inputs, []))
  {
  }

  // ---- and the others do not ----

  /** One code that fits at every step, given by two calls at one time; the other
      calls give one that fits nowhere. */
  function TwoAlike(i: nat, j: nat): nat -> Input {
    (k: nat) => Input(DEK, if k == i || k == j then "c" else "", 300)
  }

  function AlwaysC(): CodeFn {
    (s: Bytes, k: int) => Some("c")
  }

  /** A vault set up, and enrolled with the code of the first step. */
  function Enrolled(): World {
    var row := VaultRow(1, COSTS, Wrap(1, PASSPHRASE, COSTS, NONCE, DEK), 0);
    World(State(Some(row), Empty().(totp := Some(Sealed(Raw(DEK), NONCE, RoleAad(TOTP_CELL), SECRET)))), map[])
  }

  /** A first setup and an accepted enrolment lead there, and the passphrase unlocks it
      with the key that all the calls use. */
  lemma EnrolledIsReached(codes: CodeFn, code: string)
    requires codes(SECRET, 0) == Some(code)
    ensures var (empty, key) := Setup(NEW_STATE, PASSPHRASE, COSTS, DEK, NONCE);
      && key == Ok(DEK)
      && ConfirmTotp(empty, codes, DEK, SECRET, code, PERIOD, NONCE) == (Enrolled().st, Ok(true))
    ensures Unlock(Enrolled().st, PASSPHRASE) == Ok(DEK) && Begins(Enrolled())
  {
    AcceptedExactly(codes, SECRET, code, PERIOD, -1, 0);
    hide Validate, RoleAad;
  }

  const FIRST := 9 // the first step of the window around the sixth minute

  lemma CheckedEnrolled(st: State, codes: CodeFn, code: string, now: Clock)
    requires st.vault.Some? && st.rows == Enrolled().st.rows
    ensures Checked(st, codes, DEK, code, now) ==
      match Validate(codes, SECRET, code, now, st.vault.value.totpLast)
      case Broken => Err(BadSecret)
      case Refused => Ok(None)
      case Accepted(step) => Ok(Some(step))
  {
    hide Validate, RoleAad;
  }

  /** What a code comes to at one step, and if it does not fit, at the later ones. */
  function AtStep(want: Option<string>, code: string, step: int, last: int, later: Verdict): Verdict {
    if want.None? then Broken
    else if want != Some(code) then later
    else if step <= last then Refused
    else Accepted(step)
  }

  lemma Window(codes: CodeFn, code: string, now: Clock, last: int)
    ensures var n := now / PERIOD;
      Validate(codes, SECRET, code, now, last) ==
        AtStep(codes(SECRET, n - 1), code, n - 1, last,
          AtStep(codes(SECRET, n), code, n, last, AtStep(codes(SECRET, n + 1), code, n + 1, last, Refused)))
  {
    hide SECRET;
    Unroll(-1, [0, 1], codes, SECRET, code, now, last);
    Unroll(0, [1], codes, SECRET, code, now, last);
    Unroll(1, [], codes, SECRET, code, now, last);
    assert [-1] + [0, 1] == [-1, 0, 1] && [0] + [1] == [0, 1] && [1] + [] == [1];
    assert TryOffsets([], codes, SECRET, code, now, last) == Refused;
    hide TryOffsets;
  }

  lemma CheckedAlike(st: State, i: nat, j: nat, k: nat)
    requires st.vault.Some? && st.rows == Enrolled().st.rows
    ensures var input := TwoAlike(i, j)(k);
      Checked(st, AlwaysC(), input.dek, input.code, input.clock) ==
        Ok(if (k == i || k == j) && st.vault.value.totpLast < FIRST then Some(FIRST) else None)
  {
    var code := TwoAlike(i, j)(k).code;
    CheckedEnrolled(st, AlwaysC(), code, 300);
    Window(AlwaysC(), code, 300, st.vault.value.totpLast);
    hide Checked, Enrolled, DEK, SECRET, Validate;
  }

  /** The world among the first `n` turns, when call `i` looks at `a` and notes at `c`
      and call `j` looks at `p` and notes at `b`, which lies between. */
  ghost predicate Replaying(w: World, steps: seq<int>, n: nat, i: nat, a: nat, c: nat, j: nat, p: nat, b: nat) {
    && w.st.vault.Some? && w.st.rows == Enrolled().st.rows
    && w.st.vault.value.totpLast == (if n <= b then 0 else FIRST)
    && (forall k | k in w.calls && w.calls[k].Some? :: k == i || k == j)
    && (i in w.calls <==> a < n) && (a < n ==> w.calls[i] == if n <= c then Some(FIRST) else None)
    && (j in w.calls <==> p < n) && (p < n ==> w.calls[j] == if n <= b then Some(FIRST) else None)
    && steps == (if n <= b then [] else if n <= c then [FIRST] else [FIRST, FIRST])
  }

  lemma ReplayTurn(w: World, steps: seq<int>, ts: seq<Turn>, n: nat, a: nat, b: nat, c: nat, p: nat)
    requires Schedule(ts) && Inside(ts, a, b, c) && n < |ts|
    requires p < b && ts[p] == Look(ts[b].call)
    requires Replaying(w, steps, n, ts[a].call, a, c, ts[b].call, p, b)
    ensures var (i, j) := (ts[a].call, ts[b].call);
      var (w', step) := Next(w, AlwaysC(), TwoAlike(i, j), ts[n]);
      Replaying(w', steps + if step.Some? then [step.value] else [], n + 1, i, a, c, j, p, b)
  {
    var (i, j, t) := (ts[a].call, ts[b].call, ts[n]);
    hide Schedule, Inside, AlwaysC, Enrolled, DEK, SECRET, Checked, TwoAlike, Validate;
    WhoseTurn(ts, n, a, b, c, p);
    CheckedAlike(w.st, i, j, t.call);
  }

  /** Each turn occurs once, so what it is tells where it stands. */
  lemma WhoseTurn(ts: seq<Turn>, n: nat, a: nat, b: nat, c: nat, p: nat)
    requires Schedule(ts) && Inside(ts, a, b, c) && n < |ts| && p < b && ts[p] == Look(ts[b].call)
    ensures var (i, j, t) := (ts[a].call, ts[b].call, ts[n]);
      && i != j && ts[a] == Look(i) && ts[b] == Note(j) && a < c && p < b < c
      && (t == Look(i) <==> n == a) && (t == Look(j) <==> n == p)
      && (t == Note(i) <==> n == c) && (t == Note(j) <==> n == b)
  {
    assert n != a ==> ts[n] != ts[a];
    assert n != b ==> ts[n] != ts[b];
    assert n != c ==> ts[n] != ts[c];
    assert n != p ==> ts[n] != ts[p];
  }

  lemma {:induction false} Replays(ts: seq<Turn>, n: nat, a: nat, b: nat, c: nat, p: nat)
    requires Schedule(ts) && Inside(ts, a, b, c) && n <= |ts|
    requires p < b && ts[p] == Look(ts[b].call)
    ensures var (i, j) := (ts[a].call, ts[b].call);
      Replaying(After(Enrolled(), AlwaysC(), TwoAlike(i, j), ts[..n]),
        Consumed(Enrolled(), AlwaysC(), TwoAlike(i, j), ts[..n]), n, i, a, c, j, p, b)
  {
    ReplayStarts(ts[a].call, a, c, ts[b].call, p, b);
    hide Replaying, Next, Schedule, Inside, TwoAlike, AlwaysC, Enrolled, After, Consumed;
    var w, inputs := Enrolled(), TwoAlike(ts[a].call, ts[b].call);
    if n > 0 {
      OneTurnMore(w, AlwaysC(), inputs, ts, n - 1);
      Replays(ts, n - 1, a, b, c, p);
      ReplayTurn(After(w, AlwaysC(), inputs, ts[..n - 1]), Consumed(w, AlwaysC(), inputs, ts[..n - 1]),
        ts, n - 1, a, b, c, p);
    } else {
      assert ts[..0] == [];
    }
  }

  lemma ReplayStarts(i: nat, a: nat, c: nat, j: nat, p: nat, b: nat)
    ensures Replaying(After(Enrolled(), AlwaysC(), TwoAlike(i, j), []),
      Consumed(Enrolled(), AlwaysC(), TwoAlike(i, j), []), 0, i, a, c, j, p, b)
  {
  }

  /** From any vault that a passphrase unlocks, whatever the secret, codes and times,
      the consumed steps strictly increase exactly when no write falls between the
      read and the write of a call. */
  lemma SafeExactly(ts: seq<Turn>)
    requires Schedule(ts)
    ensures Safe(ts) <==> Serial(ts)
  {
    assert ts[..|ts|] == ts;
    if Serial(ts) {
      forall w: World, codes: CodeFn, inputs: nat -> Input | Begins(w)
        ensures OneTime.Increasing(Consumed(w, codes, inputs, ts))
      {
        SerialStaysAhead(w, codes, inputs, ts, |ts|);
      }
    } else {
      var a, b, c :| Inside(ts, a, b, c);
      var p :| 0 <= p < b && ts[p] == Look(ts[b].call);
      Replays(ts, |ts|, a, b, c, p);
      EnrolledIsReached(AlwaysC(), "c");
      var steps := Consumed(Enrolled(), AlwaysC(), TwoAlike(ts[a].call, ts[b].call), ts);
      assert steps[0] == steps[1];
    }
  }

  // ---- a replay that overlaps nobody ----

  /** Different codes at different steps: "x" at the present one, "y" at the next. */
  function TwoSteps(): CodeFn {
    (s: Bytes, k: int) => Some(if k == FIRST + 1 then "x" else if k == FIRST + 2 then "y" else "z")
  }

  function YXY(): nat -> Input {
    (k: nat) => Input(DEK, if k == 1 then "x" else "y", 300)
  }

  const OVERLAP := [Look(0), Look(1), Note(0), Note(1)]
  const AFTERWARDS := [Look(2), Note(2)]

  lemma CheckedTwoSteps(st: State, k: nat)
    requires st.vault.Some? && st.rows == Enrolled().st.rows
    ensures var input, step := YXY()(k), if k == 1 then FIRST + 1 else FIRST + 2;
      Checked(st, TwoSteps(), input.dek, input.code, input.clock) ==
        Ok(if st.vault.value.totpLast < step then Some(step) else None)
  {
    var code := YXY()(k).code;
    CheckedEnrolled(st, TwoSteps(), code, 300);
    Window(TwoSteps(), code, 300, st.vault.value.totpLast);
    hide Checked, Enrolled, DEK, SECRET, Validate;
  }

  /** From a vault just set up and enrolled, two overlapping calls write their steps in
      falling order; a third call, which begins when both are over, is then given the
      first one's code and accepts it. */
  lemma LowerStepReopensHigher()
    ensures var (empty, key) := Setup(NEW_STATE, PASSPHRASE, COSTS, DEK, NONCE);
      && ConfirmTotp(empty, TwoSteps(), DEK, SECRET, "z", PERIOD, NONCE) == (Enrolled().st, Ok(true))
      && Unlock(Enrolled().st, PASSPHRASE) == Ok(DEK)
    ensures var w := After(Enrolled(), TwoSteps(), YXY(), OVERLAP);
      && Consumed(Enrolled(), TwoSteps(), YXY(), OVERLAP) == [FIRST + 2, FIRST + 1]
      && YXY()(2) == YXY()(0)
      && Serial(AFTERWARDS)
      && Consumed(w, TwoSteps(), YXY(), AFTERWARDS) == [FIRST + 2]
  {
    EnrolledIsReached(TwoSteps(), "z");
    hide Setup, ConfirmTotp, Unlock, Begins, Validate;
    TwoOverlap();
    var w := After(Enrolled(), TwoSteps(), YXY(), OVERLAP);
    CheckedTwoSteps(w.st, 2);
    TwoTurns(w, TwoSteps(), YXY(), Look(2), Note(2));
    hide Checked, After, Consumed, Enrolled, TwoSteps;
  }

  lemma TwoLooks()
    ensures var w0 := Enrolled();
      var w1 := w0.(calls := map[0 := Some(FIRST + 2)]);
      && Next(w0, TwoSteps(), YXY(), Look(0)) == (w1, None)
      && Next(w1, TwoSteps(), YXY(), Look(1)) == (w1.(calls := map[0 := Some(FIRST + 2), 1 := Some(FIRST + 1)]), None)
  {
    var w0 := Enrolled();
    CheckedTwoSteps(w0.st, 0);
    CheckedTwoSteps(w0.st, 1);
    hide Checked, TwoSteps;
  }

  lemma TwoOverlap()
    ensures var w, w0 := After(Enrolled(), TwoSteps(), YXY(), OVERLAP), Enrolled();
      && Consumed(w0, TwoSteps(), YXY(), OVERLAP) == [FIRST + 2, FIRST + 1]
      && w.st == Noted(Noted(w0.st, FIRST + 2), FIRST + 1) && 2 !in w.calls
  {
    TwoLooks();
    hide Checked, After, Consumed, Enrolled, TwoSteps, YXY, Noted;
    FourTurns(Enrolled(), TwoSteps(), YXY(), Look(0), Look(1), Note(0), Note(1));
  }

  lemma TwoTurns(w: World, codes: CodeFn, inputs: nat -> Input, s: Turn, t: Turn)
    ensures var a := Next(w, codes, inputs, s); var b := Next(a.0, codes, inputs, t);
      && After(w, codes, inputs, [s, t]) == b.0
      && Consumed(w, codes, inputs, [s, t]) ==
           (if a.1.Some? then [a.1.value] else []) + (if b.1.Some? then [b.1.value] else [])
  {
    var ts := [s, t];
    OneTurnMore(w, codes, inputs, ts, 0);
    OneTurnMore(w, codes, inputs, ts, 1);
    assert ts[..0] == [] && ts[..2] == ts;
    hide Next;
  }

  lemma FourTurns(w: World, codes: CodeFn, inputs: nat -> Input, s: Turn, t: Turn, u: Turn, v: Turn)
    ensures var a := Next(w, codes, inputs, s); var b := Next(a.0, codes, inputs, t);
      var c := Next(b.0, codes, inputs, u); var d := Next(c.0, codes, inputs, v);
      && After(w, codes, inputs, [s, t, u, v]) == d.0
      && Consumed(w, codes, inputs, [s, t, u, v]) ==
           (if a.1.Some? then [a.1.value] else []) + (if b.1.Some? then [b.1.value] else [])
           + (if c.1.Some? then [c.1.value] else []) + (if d.1.Some? then [d.1.value] else [])
  {
    var ts := [s, t, u, v];
    TwoTurns(w, codes, inputs, s, t);
    OneTurnMore(w, codes, inputs, ts, 2);
    OneTurnMore(w, codes, inputs, ts, 3);
    assert ts[..2] == [s, t] && ts[..4] == ts;
    hide Next, After, Consumed;
  }
}
