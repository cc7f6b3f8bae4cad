/** Small shared types: options, results and the errors the program reports. */
module Common {

  type byte = x: int | 0 <= x < 256

  type Bytes = seq<byte>

  function Repeated(n: nat, b: byte): Bytes {
    seq(n, _ => b)
  }

  datatype Option<+T> = None | Some(value: T)

  /** The error values that callers of the store and of the vault can tell apart. */
  datatype Error =
    | NotFound        // no row, or a statement that touched no row
    | Constraint      // primary key, foreign key or CHECK violation
    | Decrypt         // authenticated decryption failed
    | BadKey          // key is not 32 bytes long
    | NotInit         // vault row missing
    | AlreadyInit     // vault row present
    | OrphanData      // content present without a vault row
    | BadPassphrase   // the wrapped key did not open
    | BadSecret       // no one-time code can be generated from the secret

  datatype Result<+T> = Ok(value: T) | Err(error: Error)

  /** Every element once, in some order. */
  ghost predicate Enumerates<T(!new)>(s: seq<T>, elements: set<T>) {
    (forall x :: x in s <==> x in elements) && (forall i, j | 0 <= i < j < |s| :: s[i] != s[j])
  }

  method Enumerate<T(==,!new)>(elements: set<T>) returns (s: seq<T>)
    ensures Enumerates(s, elements)
  {
    s := [];
    var rest := elements;
    while rest != {}
      invariant rest <= elements
      invariant Enumerates(s, elements - rest)
      decreases rest
    {
      var x :| x in rest;
      s, rest := s + [x], rest - {x};
    }
  }
}
