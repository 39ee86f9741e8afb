/** Values shared by the modules of this project. */
module Common {

  datatype Option<+T> = None | Some(value: T) {
    function GetOr(default: T): T {
      match this
      case Some(v) => v
      case None => default
    }
  }

  /** Capacity of the shared text buffers, `GLOBAL_BUFFER` and `messageBuffer` among them (device_defines.h). */
  const MAX_BUFFER_SIZE: nat := 1000

  /** One octet on the wire or in a C `unsigned char` buffer. */
  type byte = b: int | 0 <= b < 256

  /** `s` with the bytes from index `at` on overwritten by `bs`. */
  function Splice(s: seq<byte>, at: nat, bs: seq<byte>): (r: seq<byte>)
    requires at + |bs| <= |s|
    ensures |r| == |s|
  {
    s[..at] + bs + s[at + |bs|..]
  }

  /** Writing one range after the other is writing both at once. */
  lemma SpliceSplice(s: seq<byte>, at: nat, a: seq<byte>, b: seq<byte>)
    requires at + |a| + |b| <= |s|
    ensures Splice(Splice(s, at, a), at + |a|, b) == Splice(s, at, a + b)
  {
  }

  lemma SpliceFront(s: seq<byte>, bs: seq<byte>)
    requires |bs| <= |s|
    ensures Splice(s, 0, bs) == bs + s[|bs|..]
  {
  }

  lemma SpliceByte(s: seq<byte>, at: nat, a: seq<byte>, b: byte)
    requires at + |a| < |s|
    ensures Splice(s, at, a)[at + |a| := b] == Splice(s, at, a + [b])
  {
  }

  /** Calls such as the file operations return one of these two codes. */
  datatype Status = SUCCESS | FAILURE
}
