/** Key material in memory: byte buffers that are overwritten in place. */
module Memory {
  import opened Common

  ghost predicate IsZero(b: array<byte>)
    reads b
  {
    forall i | 0 <= i < b.Length :: b[i] == 0
  }

  /** Overwrites a buffer with zeros. */
  method Zero(b: array<byte>)
    modifies b
    ensures IsZero(b)
  {
    for i := 0 to b.Length
      invariant forall k | 0 <= k < i :: b[k] == 0
    {
      b[i] := 0;
    }
  }

  method Buffer(bytes: Bytes) returns (b: array<byte>)
    ensures fresh(b) && b[..] == bytes
  {
    b := new byte[|bytes|](i requires 0 <= i < |bytes| => bytes[i]);
  }
}
