/** One-time use of codes (section 5.2 of RFC 6238): over any run inside one
    enrolment the accepted time steps only go up. */
module OneTime {
  import opened Common
  import opened Tables
  import opened Totp
  import opened VaultSpec
  import opened Refinement

  /** The steps of the codes a run accepts at login, in order. */
  ghost function AcceptedSteps(codes: CodeFn, m: Machine, qs: seq<Request>): seq<int>
    decreases |qs|
  {
    if qs == [] then []
    else
      var (m', a) := Serve(codes, m, qs[0]);
      var rest := AcceptedSteps(codes, m', qs[1..]);
      if qs[0].GiveCode? && a == Flag(true) && m'.st.vault.Some? then [m'.st.vault.value.totpLast] + rest else rest
  }

  /** The request neither enrols a new secret nor drops the one there is; a refused
      enrolment is neither. */
  ghost predicate KeepsSecret(codes: CodeFn, m: Machine, q: Request) {
    var a := Serve(codes, m, q).1;
    !(q.Enrol? && a == Flag(true)) && !(q.DropTotp? && a == Done)
  }

  ghost predicate StaysEnrolled(codes: CodeFn, m: Machine, qs: seq<Request>)
    decreases |qs|
  {
    qs != [] ==> KeepsSecret(codes, m, qs[0]) && StaysEnrolled(codes, Serve(codes, m, qs[0]).0, qs[1..])
  }

  predicate Increasing(s: seq<int>) {
    forall i, j | 0 <= i < j < |s| :: s[i] < s[j]
  }

  /** The code fits the stored secret at a step of the window. */
  predicate FitsStep(codes: CodeFn, m: Machine, q: Request, step: int)
    requires q.GiveCode?
  {
    && m.key.Some? && m.st.rows.totp.Some?
    && var secret := Aead.Open(Aead.Raw(m.key.value), m.st.rows.totp.value, RoleAad(TOTP_CELL));
      && secret.Ok? && codes(secret.value, step) == Some(q.code)
      && q.now / PERIOD - 1 <= step <= q.now / PERIOD + 1
  }

  /** Within an enrolment no request moves the consumed step, save a login whose code
      is accepted, and that one moves it up to a step that the code fits. */
  lemma StepsMoveUp(codes: CodeFn, m: Machine, q: Request)
    requires m.st.vault.Some? && KeepsSecret(codes, m, q)
    ensures var (m', a) := Serve(codes, m, q);
      && m'.st.vault.Some?
      && if q.GiveCode? && a == Flag(true)
         then
           && m.st.vault.value.totpLast < m'.st.vault.value.totpLast
           && FitsStep(codes, m, q, m'.st.vault.value.totpLast)
         else m'.st.vault.value.totpLast == m.st.vault.value.totpLast
  {
    if q.GiveCode? && m.key.Some? && m.st.rows.totp.Some? {
      var plain := Aead.Open(Aead.Raw(m.key.value), m.st.rows.totp.value, RoleAad(TOTP_CELL));
      if plain.Ok? {
        var v := Validate(codes, plain.value, q.code, q.now, m.st.vault.value.totpLast);
        if v.Accepted? {
          AcceptedExactly(codes, plain.value, q.code, q.now, m.st.vault.value.totpLast, v.step);
        }
      }
    }
    hide Validate;
  }

  /** Accepted steps strictly increase and lie above the step consumed before the
      run, whatever writes, rekeys and passphrase changes fall between. */
  lemma {:induction false} StepsAreUsedOnce(codes: CodeFn, m: Machine, qs: seq<Request>)
    requires m.st.vault.Some? && StaysEnrolled(codes, m, qs)
    ensures var steps := AcceptedSteps(codes, m, qs);
      Increasing(steps) && forall i | 0 <= i < |steps| :: m.st.vault.value.totpLast < steps[i]
    decreases |qs|
  {
    if qs != [] {
      StepsMoveUp(codes, m, qs[0]);
      hide Serve, KeepsSecret;
      StepsAreUsedOnce(codes, Serve(codes, m, qs[0]).0, qs[1..]);
    }
  }

  /** The code that confirmed the enrolment is consumed too. */
  lemma EnrolmentConsumesItsStep(codes: CodeFn, m: Machine, q: Request, qs: seq<Request>)
    requires m.st.vault.Some? && q.Enrol? && Serve(codes, m, q).1 == Flag(true)
    requires StaysEnrolled(codes, Serve(codes, m, q).0, qs)
    ensures var m' := Serve(codes, m, q).0; var n := q.now / PERIOD;
      && m'.st.vault.Some? && n - 1 <= m'.st.vault.value.totpLast <= n + 1
      && codes(q.secret, m'.st.vault.value.totpLast) == Some(q.code)
      && (var steps := AcceptedSteps(codes, m', qs);
          forall i | 0 <= i < |steps| :: m'.st.vault.value.totpLast < steps[i])
  {
    var m' := Serve(codes, m, q).0;
    var v := Validate(codes, q.secret, q.code, q.now, -1);
    AcceptedExactly(codes, q.secret, q.code, q.now, -1, m'.st.vault.value.totpLast);
    assert v == Accepted(m'.st.vault.value.totpLast);
    StepsAreUsedOnce(codes, m', qs);
  }
}
