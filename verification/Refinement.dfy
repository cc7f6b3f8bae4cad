/** The encrypted vault refines a plaintext one: over any sequence of requests by
    one session, both machines give the same answers. */
module Refinement {
  import opened Common
  import opened Aead
  import opened Aad
  import opened Tables
  import opened Sealing
  import opened Totp
  import opened VaultSpec
  import opened Lifecycle

  /** A request, with the random draws the program makes while serving it. */
  datatype Request =
    | SetUp(passphrase: Bytes, params: KdfParams, dek: Dek, nonce: Bytes)
    | Open(passphrase: Bytes)
    | Lock
    | Edit(edit: Edit<Bytes>, nonces: Cell -> Bytes)
    | Show(cell: Cell)
    | AskNotes(id: Id)
    | AskSize(id: Id)
    | NewPassphrase(current: Bytes, passphrase: Bytes, params: KdfParams, nonce: Bytes)
    | RekeyAll(passphrase: Bytes, params: KdfParams, nonce: Bytes, dek: Dek, nonces: Cell -> Bytes)
    | Enrol(secret: Bytes, code: string, now: Clock, nonce: Bytes)
    | GiveCode(code: string, now: Clock)
    | AskTotp
    | DropTotp

  datatype Answer = Done | Failed(error: Error) | Shown(text: Bytes) | Flag(yes: bool) | Count(n: int) | Locked

  /** An attachment row records the length of its plaintext. */
  function Sized(e: Edit<Bytes>): Edit<Bytes> {
    if e.NewAttachment? then e.(size := |e.data|) else e
  }

  function Report<T>(r: Result<T>): Answer {
    if r.Ok? then Done else Failed(r.error)
  }

  function ReportFlag(r: Result<bool>): Answer {
    if r.Ok? then Flag(r.value) else Failed(r.error)
  }

  // ---- the encrypted machine: the stored state and the session's key ----

  datatype Machine = Machine(st: State, key: Option<Bytes>)

  ghost function Serve(codes: CodeFn, m: Machine, q: Request): (Machine, Answer) {
    match q
    case SetUp(passphrase, params, dek, nonce) =>
      var (st, r) := Setup(m.st, passphrase, params, dek, nonce);
      (Machine(st, if r.Ok? then Some(r.value) else m.key), Report(r))
    case Open(passphrase) =>
      var r := Unlock(m.st, passphrase);
      (m.(key := if r.Ok? then Some(r.value) else m.key), Report(r))
    case Lock => (m.(key := None), Done)
    case _ => if m.key.None? then (m, Locked) else ServeUnlocked(codes, m, q)
  }

  ghost function ServeUnlocked(codes: CodeFn, m: Machine, q: Request): (Machine, Answer)
    requires m.key.Some? && !q.SetUp? && !q.Open? && !q.Lock?
  {
    var dek := m.key.value;
    match q
    case Edit(edit, nonces) =>
      var (st, r) := Write(m.st, dek, Sized(edit), nonces);
      (m.(st := st), Report(r))
    case Show(cell) =>
      var r := Read(m.st, dek, cell);
      (m, if r.Ok? then Shown(r.value) else Failed(r.error))
    case AskNotes(id) =>
      (m, if id !in m.st.rows.secrets then Failed(NotFound)
          else Flag(Size(m.st.rows.secrets[id].notes) > EMPTY_CIPHER_LEN))
    case AskSize(id) =>
      (m, if id !in m.st.rows.attachments then Failed(NotFound) else Count(m.st.rows.attachments[id].size))
    case NewPassphrase(current, passphrase, params, nonce) =>
      var verify := Unlock(m.st, current);
      if verify.Err? then (m, Failed(verify.error))
      else
        var (st, r) := ChangePassphrase(m.st, verify.value, passphrase, params, nonce);
        (m.(st := st), Report(r))
    case RekeyAll(passphrase, params, nonce, newDek, nonces) =>
      var (st, r) := Rekey(m.st, passphrase, params, nonce, newDek, nonces);
      (Machine(st, if r.Ok? then Some(r.value) else m.key), Report(r))
    case Enrol(secret, code, now, nonce) =>
      var (st, r) := ConfirmTotp(m.st, codes, dek, secret, code, now, nonce);
      (m.(st := st), ReportFlag(r))
    case GiveCode(code, now) =>
      var (st, r) := VerifyLoginTotp(m.st, codes, dek, code, now);
      (m.(st := st), ReportFlag(r))
    case AskTotp => (m, ReportFlag(TotpEnabled(m.st)))
    case DropTotp => (m.(st := DisableTotp(m.st)), Done)
  }

  // ---- the plaintext machine ----

  /** No keys, no ciphertext: a passphrase, a counter and a tree of records. */
  datatype Plain = Plain(
    initialized: bool, passphrase: Bytes, epoch: int, rows: Rows<Bytes>, totpLast: int, unlocked: bool)

  const NEW_PLAIN := Plain(false, [], 0, Empty(), 0, false)

  function ServePlain(codes: CodeFn, p: Plain, q: Request): (Plain, Answer) {
    match q
    case SetUp(passphrase, _, _, _) =>
      if p.initialized then (p, Failed(AlreadyInit))
      else (Plain(true, passphrase, 1, Empty(), 0, true), Done)
    case Open(passphrase) =>
      if !p.initialized then (p, Failed(NotInit))
      else if passphrase != p.passphrase then (p, Failed(BadPassphrase))
      else (p.(unlocked := true), Done)
    case Lock => (p.(unlocked := false), Done)
    case _ => if !p.unlocked then (p, Locked) else ServePlainUnlocked(codes, p, q)
  }

  function ServePlainUnlocked(codes: CodeFn, p: Plain, q: Request): (Plain, Answer)
    requires !q.SetUp? && !q.Open? && !q.Lock?
  {
    match q
    case Edit(edit, _) =>
      var r := Apply(p.rows, Sized(edit));
      (if r.Ok? then p.(rows := r.value) else p, Report(r))
    case Show(cell) => (p, if Has(p.rows, cell) then Shown(Get(p.rows, cell)) else Failed(NotFound))
    case AskNotes(id) => (p, if id !in p.rows.secrets then Failed(NotFound) else Flag(p.rows.secrets[id].notes != []))
    case AskSize(id) =>
      (p, if id !in p.rows.attachments then Failed(NotFound) else Count(|p.rows.attachments[id].data|))
    case NewPassphrase(current, passphrase, _, _) =>
      if current != p.passphrase then (p, Failed(BadPassphrase))
      else (p.(passphrase := passphrase, epoch := p.epoch + 1), Done)
    case RekeyAll(passphrase, _, _, _, _) =>
      if passphrase != p.passphrase then (p, Failed(BadPassphrase)) else (p.(epoch := p.epoch + 1), Done)
    case Enrol(secret, code, now, _) =>
      (match Validate(codes, secret, code, now, -1)
       case Broken => (p, Failed(BadSecret))
       case Refused => (p, Flag(false))
       case Accepted(step) => (p.(rows := p.rows.(totp := Some(secret)), totpLast := step), Flag(true)))
    case GiveCode(code, now) =>
      if p.rows.totp.None? then (p, Failed(Decrypt))
      else
        (match Validate(codes, p.rows.totp.value, code, now, p.totpLast)
         case Broken => (p, Failed(BadSecret))
         case Refused => (p, Flag(false))
         case Accepted(step) => (p.(totpLast := step), Flag(true)))
    case AskTotp => (p, Flag(p.rows.totp.Some?))
    case DropTotp => (p.(rows := p.rows.(totp := None), totpLast := 0), Done)
  }

  // ---- the simulation ----

  /** Sizes record plaintext lengths. */
  ghost predicate SizesTrue(r: Rows<Bytes>) {
    forall id | id in r.attachments :: r.attachments[id].size == |r.attachments[id].data|
  }

  ghost predicate Related(m: Machine, p: Plain) {
    if !p.initialized then m == Machine(NEW_STATE, None) && p == NEW_PLAIN
    else
      && Unlock(m.st, p.passphrase).Ok?
      && Consistent(m.st, p.passphrase, Unlock(m.st, p.passphrase).value, p.rows)
      && m.st.vault.value.epoch == p.epoch
      && m.st.vault.value.totpLast == p.totpLast
      && m.key == (if p.unlocked then Some(Unlock(m.st, p.passphrase).value) else None)
      && SizesTrue(p.rows)
  }

  lemma Simulates(codes: CodeFn, m: Machine, p: Plain, q: Request)
    requires Related(m, p)
    ensures Serve(codes, m, q).1 == ServePlain(codes, p, q).1
    ensures Related(Serve(codes, m, q).0, ServePlain(codes, p, q).0)
  {
    if q.SetUp? {
      if !p.initialized {
        SetupEstablishes(m.st, q.passphrase, q.params, q.dek, q.nonce);
      }
    } else if !p.unlocked || q.Open? || q.Lock? {
    } else {
      SimulatesUnlocked(codes, m, p, q);
    }
  }

  lemma SimulatesUnlocked(codes: CodeFn, m: Machine, p: Plain, q: Request)
    requires Related(m, p) && p.unlocked && !q.SetUp? && !q.Open? && !q.Lock?
    ensures ServeUnlocked(codes, m, q).1 == ServePlainUnlocked(codes, p, q).1
    ensures Related(ServeUnlocked(codes, m, q).0, ServePlainUnlocked(codes, p, q).0)
  {
    if q.Edit? {
      SimulatesEdit(codes, m, p, q);
    } else if q.Show? || q.AskNotes? || q.AskSize? {
      SimulatesShow(codes, m, p, q);
    } else if q.NewPassphrase? {
      SimulatesNewPassphrase(codes, m, p, q);
    } else if q.RekeyAll? {
      SimulatesRekey(codes, m, p, q);
    } else {
      SimulatesTotp(codes, m, p, q);
    }
  }

  lemma SimulatesEdit(codes: CodeFn, m: Machine, p: Plain, q: Request)
    requires Related(m, p) && p.unlocked && q.Edit?
    ensures ServeUnlocked(codes, m, q).1 == ServePlainUnlocked(codes, p, q).1
    ensures Related(ServeUnlocked(codes, m, q).0, ServePlainUnlocked(codes, p, q).0)
  {
    var e := Sized(q.edit);
    EditCommutes(m.st.rows, p.rows, m.key.value, e, q.nonces);
    EditsKeepIntact(m.st.rows, SealEdit(e, m.key.value, q.nonces));
    EditKeepsSizes(p.rows, e);
    hide Apply, SealEdit, Seals, Intact, SizesTrue;
  }

  lemma EditKeepsSizes(r: Rows<Bytes>, e: Edit<Bytes>)
    requires SizesTrue(r) && (e.NewAttachment? ==> e.size == |e.data|)
    ensures Apply(r, e).Ok? ==> SizesTrue(Apply(r, e).value)
  {
    if IsDelete(e) {
      assert Apply(r, e) == Delete(r, DeletesFrom(e), e.id);
    }
  }

  lemma SimulatesShow(codes: CodeFn, m: Machine, p: Plain, q: Request)
    requires Related(m, p) && p.unlocked && (q.Show? || q.AskNotes? || q.AskSize?)
    ensures ServeUnlocked(codes, m, q) == (m, ServePlainUnlocked(codes, p, q).1)
    ensures ServePlainUnlocked(codes, p, q).0 == p
  {
    if q.Show? {
      ShapeHas(m.st.rows, p.rows, q.cell);
    } else if q.AskNotes? && q.id in p.rows.secrets {
      assert Has(m.st.rows, Cell(Secrets, NotesEnc, q.id));
    }
  }

  lemma SimulatesNewPassphrase(codes: CodeFn, m: Machine, p: Plain, q: Request)
    requires Related(m, p) && p.unlocked && q.NewPassphrase?
    ensures ServeUnlocked(codes, m, q).1 == ServePlainUnlocked(codes, p, q).1
    ensures Related(ServeUnlocked(codes, m, q).0, ServePlainUnlocked(codes, p, q).0)
  {
    var dek := m.key.value;
    if q.current != p.passphrase {
      OnlyThePassphrase(m.st, p.passphrase, dek, q.current);
    } else {
      ChangePassphraseExactly(m.st, q.current, dek, p.rows, dek, q.passphrase, q.params, q.nonce);
    }
    hide Seals, Intact, SizesTrue;
  }

  lemma SimulatesRekey(codes: CodeFn, m: Machine, p: Plain, q: Request)
    requires Related(m, p) && p.unlocked && q.RekeyAll?
    ensures ServeUnlocked(codes, m, q).1 == ServePlainUnlocked(codes, p, q).1
    ensures Related(ServeUnlocked(codes, m, q).0, ServePlainUnlocked(codes, p, q).0)
  {
    if q.passphrase != p.passphrase {
      OnlyThePassphrase(m.st, p.passphrase, m.key.value, q.passphrase);
    } else {
      RekeyPreservesMeaning(m.st, q.passphrase, m.key.value, p.rows, q.params, q.nonce, q.dek, q.nonces);
      hide Rekey;
    }
    hide Seals, Intact, SizesTrue, SameShape;
  }

  lemma SimulatesTotp(codes: CodeFn, m: Machine, p: Plain, q: Request)
    requires Related(m, p) && p.unlocked && (q.Enrol? || q.GiveCode? || q.AskTotp? || q.DropTotp?)
    ensures ServeUnlocked(codes, m, q).1 == ServePlainUnlocked(codes, p, q).1
    ensures Related(ServeUnlocked(codes, m, q).0, ServePlainUnlocked(codes, p, q).0)
  {
    ShapeHas(m.st.rows, p.rows, TOTP_CELL);
    assert p.rows.totp.Some? ==> Has(m.st.rows, TOTP_CELL);
    if q.Enrol? {
      var blob := Sealed(Raw(m.key.value), q.nonce, RoleAad(TOTP_CELL), q.secret);
      TotpColumn(m.st.rows, p.rows, m.key.value, Some(blob), Some(q.secret));
    } else if q.DropTotp? {
      TotpColumn(m.st.rows, p.rows, m.key.value, None, None);
    }
  }

  // ---- whole runs ----

  ghost function Run(codes: CodeFn, m: Machine, qs: seq<Request>): (Machine, seq<Answer>)
    decreases |qs|
  {
    if qs == [] then (m, [])
    else
      var (m', a) := Serve(codes, m, qs[0]);
      var (m'', rest) := Run(codes, m', qs[1..]);
      (m'', [a] + rest)
  }

  function RunPlain(codes: CodeFn, p: Plain, qs: seq<Request>): (Plain, seq<Answer>)
    decreases |qs|
  {
    if qs == [] then (p, [])
    else
      var (p', a) := ServePlain(codes, p, qs[0]);
      var (p'', rest) := RunPlain(codes, p', qs[1..]);
      (p'', [a] + rest)
  }

  /** From a new database, for every sequence of requests and every outcome of the
      random draws: the encrypted vault answers as the plaintext one does, and ends
      in a state that the current passphrase unlocks and reads back in full. */
  lemma VaultRefinesPlain(codes: CodeFn, qs: seq<Request>)
    ensures var (m, answers) := Run(codes, Machine(NEW_STATE, None), qs);
      var (p, answers') := RunPlain(codes, NEW_PLAIN, qs);
      answers == answers' && Related(m, p)
  {
    RunsAgree(codes, Machine(NEW_STATE, None), NEW_PLAIN, qs);
  }

  lemma {:induction false} RunsAgree(codes: CodeFn, m: Machine, p: Plain, qs: seq<Request>)
    requires Related(m, p)
    ensures var (m', answers) := Run(codes, m, qs); var (p', answers') := RunPlain(codes, p, qs);
      answers == answers' && Related(m', p')
    decreases |qs|
  {
    if qs != [] {
      Simulates(codes, m, p, qs[0]);
      RunsAgree(codes, Serve(codes, m, qs[0]).0, ServePlain(codes, p, qs[0]).0, qs[1..]);
      hide Serve, ServePlain, Related;
    }
  }
}
