/** The additional authenticated data: which ciphertext may stand in which place. */
module Aad {
  import opened Common
  import opened Text
  import opened Aead

  /** One labelled number and what follows it. */
  function Numbered(tag: string, n: nat, rest: string): string {
    tag + Decimal(n) + "/" + rest
  }

  function WrapAad(epoch: int, p: KdfParams): string {
    "gs-dek/v1/epoch=" + (SignedDecimal(epoch) + "/"
    + Numbered("t=", p.timeT, Numbered("m=", p.memKiB, Numbered("p=", p.par, "salt=" + Hex(p.salt)))))
  }

  function FieldAad(entity: string, id: string, field: string): string {
    "gs/" + entity + "/" + id + "/" + field
  }

  /** Two role strings agree only for the same entity, id and field. The entity
      and the field must be free of slashes; the id may be any string. */
  lemma FieldAadInjective(entity: string, id: string, field: string, entity': string, id': string, field': string)
    requires '/' !in entity && '/' !in entity' && '/' !in field && '/' !in field'
    requires FieldAad(entity, id, field) == FieldAad(entity', id', field')
    ensures entity == entity' && id == id' && field == field'
  {
    var tail, tail' := id + "/" + field, id' + "/" + field';
    assert FieldAad(entity, id, field) == "gs/" + (entity + "/" + tail);
    assert FieldAad(entity', id', field') == "gs/" + (entity' + "/" + tail');
    SamePrefix("gs/", entity + "/" + tail, entity' + "/" + tail');
    FirstPartUnique('/', entity, tail, entity', tail');
    LastPartUnique('/', id, field, id', field');
  }

  lemma SamePrefix(p: string, a: string, b: string)
    requires p + a == p + b
    ensures a == b
  {
    assert a == (p + a)[|p|..] && b == (p + b)[|p|..];
  }

  lemma DecimalHasNoSlash(n: nat)
    ensures '/' !in Decimal(n)
  {
    DecimalDenotes(n);
  }

  /** Peels one labelled number off both sides. */
  lemma PeelNumber(tag: string, a: nat, x: string, b: nat, y: string)
    requires Numbered(tag, a, x) == Numbered(tag, b, y)
    ensures a == b && x == y
  {
    DecimalHasNoSlash(a);
    DecimalHasNoSlash(b);
    assert Numbered(tag, a, x) == tag + (Decimal(a) + "/" + x);
    assert Numbered(tag, b, y) == tag + (Decimal(b) + "/" + y);
    SamePrefix(tag, Decimal(a) + "/" + x, Decimal(b) + "/" + y);
    FirstPartUnique('/', Decimal(a), x, Decimal(b), y);
    DecimalDenotes(a);
    DecimalDenotes(b);
  }

  /** The wrap string determines the epoch and every derivation parameter, so no
      clear-text field beside the wrapped key can be altered unnoticed. */
  lemma WrapAadInjective(epoch: int, p: KdfParams, epoch': int, p': KdfParams)
    requires WrapAad(epoch, p) == WrapAad(epoch', p')
    ensures epoch == epoch' && p == p'
  {
    var s, s' := "salt=" + Hex(p.salt), "salt=" + Hex(p'.salt);
    var q, q' := Numbered("p=", p.par, s), Numbered("p=", p'.par, s');
    var m, m' := Numbered("m=", p.memKiB, q), Numbered("m=", p'.memKiB, q');
    var t, t' := Numbered("t=", p.timeT, m), Numbered("t=", p'.timeT, m');
    var e, e' := SignedDecimal(epoch), SignedDecimal(epoch');
    SamePrefix("gs-dek/v1/epoch=", e + "/" + t, e' + "/" + t');
    DecimalHasNoSlash(if epoch < 0 then -epoch else epoch);
    DecimalHasNoSlash(if epoch' < 0 then -epoch' else epoch');
    FirstPartUnique('/', e, t, e', t');
    SignedDecimalInjective(epoch, epoch');
    PeelNumber("t=", p.timeT, m, p'.timeT, m');
    PeelNumber("m=", p.memKiB, q, p'.memKiB, q');
    PeelNumber("p=", p.par, s, p'.par, s');
    SamePrefix("salt=", Hex(p.salt), Hex(p'.salt));
    HexInjective(p.salt, p'.salt);
  }

  /** No wrap string is a role string, whatever the parts. */
  lemma FamiliesDisjoint(epoch: int, p: KdfParams, entity: string, id: string, field: string)
    ensures WrapAad(epoch, p) != FieldAad(entity, id, field)
  {
    assert WrapAad(epoch, p)[2] == '-';
    assert FieldAad(entity, id, field)[2] == '/';
  }

  lemma NumbersAreWritten()
    ensures Decimal(2) == "2" && Decimal(4) == "4" && Decimal(64) == "64" && SignedDecimal(3) == "3"
    ensures Hex([0x0F, 0xAB]) == "0fab"
  {
    assert Hex([0x0F, 0xAB][1..]) == "ab";
  }

  lemma CostsAreWritten()
    ensures Numbered("t=", 2, Numbered("m=", 64, Numbered("p=", 4, "salt=0fab"))) == "t=2/m=64/p=4/salt=0fab"
  {
    NumbersAreWritten();
    hide Decimal, SignedDecimal, Hex;
    assert Numbered("p=", 4, "salt=0fab") == "p=4/salt=0fab";
    assert Numbered("m=", 64, "p=4/salt=0fab") == "m=64/p=4/salt=0fab";
  }

  /** The two strings as they stand in a database. */
  lemma StringsAreWritten()
    ensures FieldAad("secret", "0c1d", "value") == "gs/secret/0c1d/value"
    ensures WrapAad(3, KdfParams(2, 64, 4, [0x0F, 0xAB])) == "gs-dek/v1/epoch=3/t=2/m=64/p=4/salt=0fab"
  {
    NumbersAreWritten();
    CostsAreWritten();
    hide Decimal, SignedDecimal, Hex, Numbered;
    assert "salt=" + "0fab" == "salt=0fab";
    assert "gs-dek/v1/epoch=" + ("3" + "/" + "t=2/m=64/p=4/salt=0fab") == "gs-dek/v1/epoch=3/t=2/m=64/p=4/salt=0fab";
  }
}
