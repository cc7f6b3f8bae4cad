/** Handlers borrow the key buffer of their session: they seal with whatever it holds
    when they come to it, and store the result later. Meanwhile the session may be
    locked, evicted or given another key, which scrubs the buffer in place, and the
    vault may be rekeyed. */
module Borrowing {
  import opened Common
  import opened Aead
  import opened Tables
  import opened Sealing
  import opened VaultSpec
  import opened Lifecycle
  import Limiting
  import Login
  import Totp

  function Zeros(): Bytes {
    seq(KEY_LEN, _ => 0)
  }

  /** The stored state, the passphrase in force, the content of every key buffer, and
      the buffer of every unlocked session. */
  datatype World = World(st: State, inForce: Bytes, buffers: map<nat, Bytes>, held: map<string, nat>)

  datatype Event =
    | Change(edit: Edit<Bytes>, nonces: Cell -> Bytes)   // this and the next under the current key
    | EnrolNow(secret: Bytes, nonce: Bytes, step: int)
    | DropNow
    | NewPassphrase(passphrase: Bytes, params: KdfParams, nonce: Bytes)
    | RekeyNow(params: KdfParams, nonce: Bytes, dek: Dek, nonces: Cell -> Bytes)
    | Scrub(id: string)                                  // lock, expiry, sweep
    | TakeKey(id: string, dek: Dek, buffer: nat)

  function SealedSecret(key: Bytes, nonce: Bytes, secret: Bytes): Blob {
    Sealed(Raw(key), nonce, RoleAad(TOTP_CELL), secret)
  }

  ghost function Next(w: World, e: Event): World {
    match e
    case Change(edit, nonces) =>
      var r := Unlock(w.st, w.inForce);
      if r.Ok? then w.(st := Write(w.st, r.value, edit, nonces).0) else w
    case EnrolNow(secret, nonce, step) =>
      var r := Unlock(w.st, w.inForce);
      if r.Ok? then w.(st := WithTotp(w.st, SealedSecret(r.value, nonce, secret), step)) else w
    case DropNow => w.(st := DisableTotp(w.st))
    case NewPassphrase(passphrase, params, nonce) =>
      var r := Unlock(w.st, w.inForce);
      if r.Ok? then
        w.(st := ChangePassphrase(w.st, r.value, passphrase, params, nonce).0, inForce := passphrase)
      else w
    case RekeyNow(params, nonce, dek, nonces) => w.(st := Rekey(w.st, w.inForce, params, nonce, dek, nonces).0)
    case Scrub(id) =>
      if id in w.held then w.(buffers := w.buffers[w.held[id] := Zeros()], held := w.held - {id}) else w
    case TakeKey(id, dek, buffer) =>
      if id in w.held then
        w.(buffers := w.buffers[w.held[id] := Zeros()][buffer := dek], held := w.held[id := buffer])
      else w
  }

  ghost function After(w: World, es: seq<Event>): World
    decreases |es|
  {
    if es == [] then w else Next(After(w, es[..|es| - 1]), es[|es| - 1])
  }

  /** The event overwrites the buffer with zeros. */
  predicate Scrubs(w: World, e: Event, b: nat) {
    (e.Scrub? || e.TakeKey?) && e.id in w.held && w.held[e.id] == b
  }

  ghost predicate Scrubbed(w: World, es: seq<Event>, b: nat)
    decreases |es|
  {
    es != [] && var n := |es| - 1;
      Scrubbed(w, es[..n], b) || Scrubs(After(w, es[..n]), es[n], b)
  }

  predicate Rekeyed(es: seq<Event>) {
    exists i | 0 <= i < |es| :: es[i].RekeyNow?
  }

  /** Keys and buffers drawn in the run are new. */
  ghost predicate FreshDraws(w: World, es: seq<Event>, b: nat, dek: Bytes) {
    && (forall i | 0 <= i < |es| && es[i].RekeyNow? :: es[i].dek != dek && es[i].dek != Zeros())
    && (forall i | 0 <= i < |es| && es[i].TakeKey? :: es[i].buffer != b)
  }

  function Content(w: World, b: nat): Bytes {
    if b in w.buffers then w.buffers[b] else []
  }

  /** A buffer keeps its content until it is scrubbed, and is all zeros from then on. */
  lemma {:induction false} BufferIs(w: World, es: seq<Event>, b: nat, dek: Bytes)
    requires b in w.buffers && FreshDraws(w, es, b, dek)
    ensures var w' := After(w, es);
      b in w'.buffers && w'.buffers[b] == if Scrubbed(w, es, b) then Zeros() else w.buffers[b]
    decreases |es|
  {
    hide Rekey, Write, Unlock, Zeros;
    if es != [] {
      BufferIs(w, es[..|es| - 1], b, dek);
    }
  }

  /** The passphrase goes on unwrapping a key that reads the store; it is another key
      than at first exactly when the vault was rekeyed, and never all zeros. */
  lemma {:induction false} KeyIs(w: World, es: seq<Event>, b: nat, dek: Dek, plain: Rows<Bytes>)
    returns (key: Dek, now: Rows<Bytes>)
    requires Consistent(w.st, w.inForce, dek, plain) && dek != Zeros() && FreshDraws(w, es, b, dek)
    ensures Consistent(After(w, es).st, After(w, es).inForce, key, now)
    ensures (key == dek <==> !Rekeyed(es)) && key != Zeros()
    decreases |es|
  {
    if es == [] {
      key, now := dek, plain;
    } else {
      var n := |es| - 1;
      FreshPrefix(w, es, b, dek);
      assert es[n].RekeyNow? ==> es[n].dek != dek && es[n].dek != Zeros();
      hide FreshDraws;
      key, now := KeyIs(w, es[..n], b, dek, plain);
      RekeyedPrefix(es);
      var before, e := After(w, es[..n]), es[n];
      hide Consistent, Rekeyed, Zeros, Rekey, Write, Unlock;
      if e.RekeyNow? {
        RekeyKeeps(before.st, before.inForce, key, now, e);
        key := e.dek;
      } else if e.Change? {
        now := ChangeKeeps(before.st, before.inForce, key, now, e.edit, e.nonces);
      } else if e.NewPassphrase? {
        PassphraseKeeps(before, key, now, e);
      } else if e.EnrolNow? || e.DropNow? {
        now := EnrolKeeps(before, key, now, e);
      }
    }
  }

  lemma FreshPrefix(w: World, es: seq<Event>, b: nat, dek: Bytes)
    requires es != [] && FreshDraws(w, es, b, dek)
    ensures FreshDraws(w, es[..|es| - 1], b, dek)
  {
  }

  lemma RekeyKeeps(st: State, passphrase: Bytes, dek: Dek, plain: Rows<Bytes>, e: Event)
    requires Consistent(st, passphrase, dek, plain) && e.RekeyNow?
    ensures Consistent(Rekey(st, passphrase, e.params, e.nonce, e.dek, e.nonces).0, passphrase, e.dek, plain)
  {
    RekeyPreservesMeaning(st, passphrase, dek, plain, e.params, e.nonce, e.dek, e.nonces);
    hide Rekey, Consistent;
  }

  lemma RekeyedPrefix(es: seq<Event>)
    requires es != []
    ensures Rekeyed(es) <==> Rekeyed(es[..|es| - 1]) || es[|es| - 1].RekeyNow?
  {
    var n := |es| - 1;
    if i :| 0 <= i < |es| && es[i].RekeyNow? {
      assert i < n ==> es[..n][i].RekeyNow?;
    }
    if i :| 0 <= i < n && es[..n][i].RekeyNow? {
      assert es[i].RekeyNow?;
    }
  }

  lemma ChangeKeeps(st: State, passphrase: Bytes, dek: Dek, plain: Rows<Bytes>, edit: Edit<Bytes>,
        nonces: Cell -> Bytes)
    returns (now: Rows<Bytes>)
    requires Consistent(st, passphrase, dek, plain)
    ensures Unlock(st, passphrase) == Ok(dek) && Consistent(Write(st, dek, edit, nonces).0, passphrase, dek, now)
  {
    EditCommutes(st.rows, plain, dek, edit, nonces);
    EditsKeepIntact(st.rows, SealEdit(edit, dek, nonces));
    now := if Apply(plain, edit).Ok? then Apply(plain, edit).value else plain;
    hide Seals, Intact, Apply, SealEdit;
  }

  lemma PassphraseKeeps(w: World, dek: Dek, plain: Rows<Bytes>, e: Event)
    requires Consistent(w.st, w.inForce, dek, plain) && e.NewPassphrase?
    ensures Consistent(Next(w, e).st, Next(w, e).inForce, dek, plain)
  {
    ChangePassphraseExactly(w.st, w.inForce, dek, plain, dek, e.passphrase, e.params, e.nonce);
    hide Consistent, ChangePassphrase;
  }

  lemma EnrolKeeps(w: World, dek: Dek, plain: Rows<Bytes>, e: Event) returns (now: Rows<Bytes>)
    requires Consistent(w.st, w.inForce, dek, plain) && (e.EnrolNow? || e.DropNow?)
    ensures Consistent(Next(w, e).st, Next(w, e).inForce, dek, now)
  {
    if e.EnrolNow? {
      WithTotpExactly(w.st, w.inForce, dek, plain, dek, e.secret, e.nonce, e.step);
      now := plain.(totp := Some(e.secret));
    } else {
      DropKeeps(w.st, w.inForce, dek, plain);
      now := plain.(totp := None);
    }
    hide Seals, Intact, WithTotp, RoleAad;
  }

  /** What a handler stores when it seals with a borrowed key at one time and writes at
      another. */
  function Stored(st: State, edit: Edit<Bytes>, key: Bytes, nonces: Cell -> Bytes): State {
    match Apply(st.rows, SealEdit(edit, key, nonces)) case Ok(rows) => st.(rows := rows) case Err(_) => st
  }

  /** An enrolment of another handler is what the vault does on a fitting code. */
  lemma WholeEnrolment(w: World, codes: Totp.CodeFn, key: Dek, secret: Bytes, code: string, now: Totp.Clock,
                       nonce: Bytes)
    requires Unlock(w.st, w.inForce) == Ok(key) && Totp.Validate(codes, secret, code, now, -1).Accepted?
    ensures var step := Totp.Validate(codes, secret, code, now, -1).step;
      ConfirmTotp(w.st, codes, key, secret, code, now, nonce) == (Next(w, EnrolNow(secret, nonce, step)).st, Ok(true))
  {
    hide Totp.Validate, RoleAad;
  }

  /** A handler that borrowed the current key, `before` which it seals and `after` which
      it writes, leaves the vault readable exactly when its buffer was not scrubbed
      before it sealed, and the vault not rekeyed before it wrote. Changes of the
      passphrase meanwhile do no harm. */
  lemma BorrowedWriteExactly(w: World, dek: Dek, plain: Rows<Bytes>, b: nat,
                             before: seq<Event>, after: seq<Event>, edit: Edit<Bytes>, nonces: Cell -> Bytes)
    requires Consistent(w.st, w.inForce, dek, plain) && dek != Zeros()
    requires b in w.buffers && w.buffers[b] == dek && FreshDraws(w, before + after, b, dek)
    requires !IsDelete(edit) && Apply(After(w, before + after).st.rows, SealEdit(edit, dek, nonces)).Ok?
    ensures var sealedWith := Content(After(w, before), b);
      var written := After(w, before + after);
      var st' := Stored(written.st, edit, sealedWith, nonces);
      (exists now, key :: Unlock(st', written.inForce) == Ok(key) && Consistent(st', written.inForce, key, now)) <==>
        !Scrubbed(w, before, b) && !Rekeyed(before + after)
  {
    var sealedWith, key, now := Borrowed(w, dek, plain, b, before, after);
    var st, inForce := After(w, before + after).st, After(w, before + after).inForce;
    hide FreshDraws, Scrubbed, Rekeyed, After, Zeros;
    StoredExactly(st, inForce, key, now, sealedWith, dek, edit, nonces);
  }

  /** The same for a handler that confirms a second factor: it seals the secret with the
      borrowed key, and stores it later. */
  lemma BorrowedEnrolmentExactly(w: World, dek: Dek, plain: Rows<Bytes>, b: nat,
                                 before: seq<Event>, after: seq<Event>, secret: Bytes, nonce: Bytes, step: int)
    requires Consistent(w.st, w.inForce, dek, plain) && dek != Zeros()
    requires b in w.buffers && w.buffers[b] == dek && FreshDraws(w, before + after, b, dek)
    ensures var sealedWith := Content(After(w, before), b);
      var written := After(w, before + after);
      var st' := WithTotp(written.st, SealedSecret(sealedWith, nonce, secret), step);
      (exists now, key :: Unlock(st', written.inForce) == Ok(key) && Consistent(st', written.inForce, key, now)) <==>
        !Scrubbed(w, before, b) && !Rekeyed(before + after)
  {
    var sealedWith, key, now := Borrowed(w, dek, plain, b, before, after);
    var st, inForce := After(w, before + after).st, After(w, before + after).inForce;
    hide FreshDraws, Scrubbed, Rekeyed, After, Zeros;
    WithTotpExactly(st, inForce, key, now, sealedWith, secret, nonce, step);
    hide Consistent, Unlock, WithTotp, SealedSecret;
  }

  /** What a handler that borrowed the current key seals with, and the key when it
      writes: they are the same exactly when nothing scrubbed the one or replaced the
      other. */
  lemma Borrowed(w: World, dek: Dek, plain: Rows<Bytes>, b: nat, before: seq<Event>,
        after: seq<Event>)
    returns (sealedWith: Dek, key: Dek, now: Rows<Bytes>)
    requires Consistent(w.st, w.inForce, dek, plain) && dek != Zeros()
    requires b in w.buffers && w.buffers[b] == dek && FreshDraws(w, before + after, b, dek)
    ensures sealedWith == Content(After(w, before), b)
    ensures Consistent(After(w, before + after).st, After(w, before + after).inForce, key, now)
    ensures sealedWith == key <==> !Scrubbed(w, before, b) && !Rekeyed(before + after)
  {
    assert FreshDraws(w, before, b, dek) by {
      assert forall i | 0 <= i < |before| :: (before + after)[i] == before[i];
    }
    BufferIs(w, before, b, dek);
    sealedWith := Content(After(w, before), b);
    key, now := KeyIs(w, before + after, b, dek, plain);
    hide FreshDraws, Rekeyed, After, Consistent;
  }

  lemma StoredExactly(st: State, passphrase: Bytes, key: Dek, plain: Rows<Bytes>, given: Dek, other: Dek,
      edit: Edit<Bytes>, nonces: Cell -> Bytes)
    requires Consistent(st, passphrase, key, plain) && !IsDelete(edit)
      && Apply(st.rows, SealEdit(edit, other, nonces)).Ok?
    ensures var st' := Stored(st, edit, given, nonces);
      (exists now, k :: Unlock(st', passphrase) == Ok(k) && Consistent(st', passphrase, k, now)) <==> given == key
  {
    AppliesAlike(st.rows, plain, key, edit, other, given, nonces);
    WriteExactly(st, passphrase, key, plain, given, edit, nonces);
    StoredIsWritten(st, passphrase, edit, given, nonces);
    hide Consistent, Unlock, Write, Stored, Apply, SealEdit;
  }

  lemma AppliesAlike(rows: Rows<Blob>, plain: Rows<Bytes>, key: Bytes, edit: Edit<Bytes>, other: Bytes,
      given: Bytes, nonces: Cell -> Bytes)
    requires Seals(rows, plain, key) && Apply(rows, SealEdit(edit, other, nonces)).Ok?
    ensures Apply(plain, edit).Ok? && Apply(rows, SealEdit(edit, given, nonces)).Ok?
  {
    EditShape(plain, rows, edit, Sealer(other, nonces));
    EditShape(plain, rows, edit, Sealer(given, nonces));
    hide Apply, SameShape, MapEdit;
  }

  lemma StoredIsWritten(st: State, passphrase: Bytes, edit: Edit<Bytes>, given: Dek, nonces: Cell -> Bytes)
    ensures Stored(st, edit, given, nonces) == Write(st, given, edit, nonces).0
    ensures Unlock(Stored(st, edit, given, nonces), passphrase) == Unlock(st, passphrase)
  {
    hide Apply, SealEdit;
  }

  // ---- two sessions ----

  /** A rekey asked for by one session leaves every other one as it is; what another
      unlocked session holds is then outdated, and the first write it makes can no
      longer be read. */
  lemma OtherSessionsGoStale(codes: Totp.CodeFn, s: Login.Site, q: Login.Request, other: string,
                             passphrase: Bytes, dek: Dek, plain: Rows<Bytes>, edit: Edit<Bytes>, nonces: Cell -> Bytes)
    requires Consistent(s.st, passphrase, dek, plain) && q.PostRekey? && q.dek != dek
    requires Login.Grants(codes, s, q).Some? && other != q.visit.cookie
    requires other in s.views && s.views[other].Unlocked() && s.views[other].dek == Some(dek)
    requires !IsDelete(edit) && Apply(plain, edit).Ok?
    ensures var s' := Login.Serve(codes, s, q).0;
      && q.visit.cookie in s'.views && s'.views[q.visit.cookie].dek == Some(q.dek)
      && other in s'.views && s'.views[other] == s.views[other]
      && Consistent(s'.st, passphrase, q.dek, plain)
      && forall now :: !Consistent(Write(s'.st, dek, edit, nonces).0, passphrase, q.dek, now)
  {
    var s' := Login.Serve(codes, s, q).0;
    RekeyGranted(codes, s, q, passphrase, dek, plain);
    WriteExactly(s'.st, passphrase, q.dek, plain, dek, edit, nonces);
    hide Login.Serve, Login.Grants, Consistent, Write;
  }

  lemma RekeyGranted(codes: Totp.CodeFn, s: Login.Site, q: Login.Request, passphrase: Bytes, dek: Dek,
        plain: Rows<Bytes>)
    requires Consistent(s.st, passphrase, dek, plain) && q.PostRekey? && Login.Grants(codes, s, q).Some?
    ensures var s' := Login.Serve(codes, s, q).0;
      && q.visit.cookie in s'.views && s'.views[q.visit.cookie].dek == Some(q.dek)
      && (forall id | id in s.views && id != q.visit.cookie :: id in s'.views && s'.views[id] == s.views[id])
      && Consistent(s'.st, passphrase, q.dek, plain)
  {
    GrantedRekey(s.st, passphrase, dek, plain, q);
    hide VaultSpec.Rekey, Consistent, Limiting.AllowedAt, Limiting.WaitAt, Limiting.AfterFail, Limiting.AfterReset;
  }

  lemma GrantedRekey(st: State, passphrase: Bytes, dek: Dek, plain: Rows<Bytes>, q: Login.Request)
    requires Consistent(st, passphrase, dek, plain) && q.PostRekey?
    ensures var (st', r) := Rekey(st, q.passphrase, q.params, q.nonce, q.dek, q.nonces);
      r.Ok? ==> r == Ok(q.dek) && Consistent(st', passphrase, q.dek, plain)
  {
    if q.passphrase == passphrase {
      RekeyPreservesMeaning(st, passphrase, dek, plain, q.params, q.nonce, q.dek, q.nonces);
    } else {
      OnlyThePassphrase(st, passphrase, dek, q.passphrase);
    }
    hide Seals, Intact, Reseal;
  }
}
