/** Octets. */
module Octets {
  newtype byte = x: int | 0 <= x < 256

  function Zeros(n: nat): (d: seq<byte>)
    ensures |d| == n
  {
    seq(n, _ => 0 as byte)
  }

  /** `memcpy`. */
  method CopyInto(buf: array<byte>, at: nat, d: seq<byte>, off: nat, n: nat)
    requires at + n <= buf.Length && off + n <= |d|
    modifies buf
    ensures buf[..at + n] == old(buf[..at]) + d[off..off + n] && buf[at + n..] == old(buf[at..])[n..]
  {
    forall i | 0 <= i < n {
      buf[at + i] := d[off + i];
    }
  }
}
