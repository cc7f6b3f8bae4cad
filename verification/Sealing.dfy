/** Tables of ciphertext as an encoding of tables of plaintext. */
module Sealing {
  import opened Common
  import opened Aead
  import opened Tables

  /** A 32-byte data key, as the random source returns it. */
  type Dek = b: Bytes | |b| == KEY_LEN witness seq(KEY_LEN, _ => 0)

  /** Every ciphertext of `enc` opens under `dek` in its own role, to the cell of `plain`. */
  ghost predicate Seals(enc: Rows<Blob>, plain: Rows<Bytes>, dek: Bytes) {
    && SameShape(enc, plain)
    && forall c | Has(enc, c) :: Open(Raw(dek), Get(enc, c), RoleAad(c)) == Ok(Get(plain, c))
  }

  /** A store has at most one reading under a key. */
  lemma ReadingUnique(enc: Rows<Blob>, p: Rows<Bytes>, q: Rows<Bytes>, dek: Bytes)
    requires Seals(enc, p, dek) && Seals(enc, q, dek)
    ensures p == q
  {
    forall c | Has(p, c) ensures Get(p, c) == Get(q, c) {
      assert Has(enc, c);
    }
    CellsDetermineRows(p, q);
  }

  /** A store with any ciphertext at all is readable under at most one key. */
  lemma KeyUnique(enc: Rows<Blob>, p: Rows<Bytes>, dek: Bytes, q: Rows<Bytes>, dek': Bytes, c: Cell)
    requires Seals(enc, p, dek) && Seals(enc, q, dek') && Has(enc, c)
    ensures dek == dek'
  {
  }

  /** A ciphertext moved into any other role fails to open there, under every key. */
  lemma MovedFails(enc: Rows<Blob>, plain: Rows<Bytes>, dek: Bytes, from: Cell, to: Cell, key: Key)
    requires Seals(enc, plain, dek) && Has(enc, from) && from != to
    ensures Open(key, Get(enc, from), RoleAad(to)).Err?
  {
    if RoleAad(from) == RoleAad(to) {
      RolesDistinct(from, to);
    }
  }

  // ---- sealed writes ----

  /** Sealing a cell in its role; `nonces` is the random source, one draw a cell. */
  function Sealer(dek: Bytes, nonces: Cell -> Bytes): (Cell, Bytes) -> Blob {
    (c: Cell, v: Bytes) => Sealed(Raw(dek), nonces(c), RoleAad(c), v)
  }

  /** What the service hands to the store for a requested write. */
  function SealEdit(e: Edit<Bytes>, dek: Bytes, nonces: Cell -> Bytes): Edit<Blob> {
    MapEdit(e, Sealer(dek, nonces))
  }

  /** Two outcomes of one write, on ciphertext and on plaintext. */
  ghost predicate Matches(a: Result<Rows<Blob>>, b: Result<Rows<Bytes>>, dek: Bytes) {
    match (a, b)
    case (Ok(enc), Ok(plain)) => Seals(enc, plain, dek)
    case (Err(x), Err(y)) => x == y
    case _ => false
  }

  /** A write of sealed cells does to the plaintext what the same write of plaintext does. */
  lemma EditCommutes(enc: Rows<Blob>, plain: Rows<Bytes>, dek: Dek, e: Edit<Bytes>, nonces: Cell -> Bytes)
    requires Seals(enc, plain, dek)
    ensures Matches(Apply(enc, SealEdit(e, dek, nonces)), Apply(plain, e), dek)
  {
    EditShape(plain, enc, e, Sealer(dek, nonces));
    hide Apply, MapEdit, Seals;
    if Apply(plain, e).Ok? {
      EditSeals(enc, plain, dek, e, nonces);
    }
  }

  lemma EditSeals(enc: Rows<Blob>, plain: Rows<Bytes>, dek: Dek, e: Edit<Bytes>, nonces: Cell -> Bytes)
    requires Seals(enc, plain, dek)
    requires Apply(enc, SealEdit(e, dek, nonces)).Ok? && Apply(plain, e).Ok?
    requires SameShape(Apply(plain, e).value, Apply(enc, SealEdit(e, dek, nonces)).value)
    ensures Seals(Apply(enc, SealEdit(e, dek, nonces)).value, Apply(plain, e).value, dek)
  {
    hide Apply, SealEdit, RoleAad, Has, Get;
    var a, b := Apply(enc, SealEdit(e, dek, nonces)).value, Apply(plain, e).value;
    forall c | Has(a, c)
      ensures Has(b, c) && Open(Raw(dek), Get(a, c), RoleAad(c)) == Ok(Get(b, c))
    {
      ShapeHas(b, a, c);
      CellCommutes(enc, plain, dek, e, nonces, c);
    }
  }

  lemma CellCommutes(enc: Rows<Blob>, plain: Rows<Bytes>, dek: Dek, e: Edit<Bytes>, nonces: Cell -> Bytes, c: Cell)
    requires Seals(enc, plain, dek)
    requires Apply(enc, SealEdit(e, dek, nonces)).Ok? && Apply(plain, e).Ok?
    requires Has(Apply(enc, SealEdit(e, dek, nonces)).value, c) && Has(Apply(plain, e).value, c)
    ensures Open(Raw(dek), Get(Apply(enc, SealEdit(e, dek, nonces)).value, c), RoleAad(c)) ==
      Ok(Get(Apply(plain, e).value, c))
  {
    EditCell(enc, SealEdit(e, dek, nonces), c);
    EditCell(plain, e, c);
    MapEditWrites(e, Sealer(dek, nonces), c);
    hide Apply, MapEdit, Written, RoleAad, Has, Get;
  }
}
