/** The Go scalar types the model needs, with their ranges written out. */
module GoTypes {

  /** Go's `byte`. Go strings and `[]byte` are both modelled as `seq<byte>`. */
  type byte = x: int | 0 <= x < 0x100

  /** Go's `int64` (revisions, counts, durations in nanoseconds). */
  type int64 = x: int | -0x8000_0000_0000_0000 <= x < 0x8000_0000_0000_0000

  /** Go's `uint64` (the random draws of the benchmark). */
  type uint64 = x: int | 0 <= x < 0x1_0000_0000_0000_0000

  /** A non-nil Go `error`; only its `Error()` message is observable. */
  datatype Error = Error(message: string)

  /** The ASCII code of '-', the filler of key and value buffers. */
  const Dash: byte := 45

  /** The ASCII code of '0'. */
  const Zero: byte := 48

  /** `strings.Repeat("-", n)`. */
  function Dashes(n: nat): (s: seq<byte>)
    ensures |s| == n
    ensures forall i :: 0 <= i < n ==> s[i] == Dash
  {
    seq(n, _ => Dash)
  }
}
