/** Keys and other inputs that the concrete runs of several modules share. */
module Samples {
  import opened Common
  import opened Aead

  const DEK := Repeated(KEY_LEN, 0)
  const OTHER_DEK := Repeated(KEY_LEN, 1)
  const PASSPHRASE := Repeated(8, 120)
  const COSTS := KdfParams(3, 65536, 2, Repeated(16, 0))
  const NONCE := Repeated(NONCE_LEN, 0)
  const SECRET := Repeated(32, 65)

  lemma KeysDiffer()
    ensures |DEK| == KEY_LEN && |OTHER_DEK| == KEY_LEN && DEK != OTHER_DEK
  {
    assert DEK[0] != OTHER_DEK[0];
  }
}
