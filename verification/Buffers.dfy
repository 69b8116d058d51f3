/** What the modules that write into buffers share. */
module Buffers {
  /** The first `n` elements of a buffer. */
  ghost function Held<T>(buf: array<T>, n: nat): (s: seq<T>)
    requires n <= buf.Length
    reads buf
    ensures |s| == n
  {
    buf[..n]
  }
}
