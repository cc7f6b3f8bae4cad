/** The cryptographic primitives, symbolically: a sealed blob remembers exactly
    what went into it, and a key-encryption key is its own derivation. */
module Aead {
  import opened Common

  const KEY_LEN := 32
  const NONCE_LEN := 12
  const TAG_LEN := 16

  /** The length of a ciphertext of nothing: a longer one hides a non-empty plaintext. */
  const EMPTY_CIPHER_LEN := NONCE_LEN + TAG_LEN

  /** Argon2id inputs stored in the clear beside the wrapped key. */
  datatype KdfParams = KdfParams(timeT: nat, memKiB: nat, par: nat, salt: Bytes)

  datatype Key =
    | Raw(bytes: Bytes)                             // a random data key
    | Derived(passphrase: Bytes, params: KdfParams) // the Argon2id output

  datatype Blob =
    | Sealed(key: Key, nonce: Bytes, aad: string, plain: Bytes)
    | Forged(bytes: Bytes)                          // bytes no call of Seal produced

  predicate UsableKey(key: Key) {
    key.Raw? ==> |key.bytes| == KEY_LEN
  }

  function Seal(key: Key, nonce: Bytes, plain: Bytes, aad: string): Result<Blob> {
    if UsableKey(key) then Ok(Sealed(key, nonce, aad, plain)) else Err(BadKey)
  }

  function Open(key: Key, blob: Blob, aad: string): Result<Bytes> {
    if !UsableKey(key) then Err(BadKey)
    else if blob.Sealed? && blob.key == key && blob.aad == aad then Ok(blob.plain)
    else Err(Decrypt)
  }

  /** Stored length: nonce, ciphertext and tag. */
  function Size(blob: Blob): nat {
    if blob.Sealed? then NONCE_LEN + |blob.plain| + TAG_LEN else |blob.bytes|
  }
}
