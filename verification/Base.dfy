/** Types shared by the whole model. */
module Base {

  type byte = b: int | 0 <= b < 256

  datatype Option<+T> = None | Some(value: T)

  const INT32_MAX: int := 0x7fff_ffff
  const DATA_PAYLOAD_LENGTH: int := 4096

  /** How much of a flow-controlled stream may be read at once. */
  function ReadLimit(window: int): (r: int)
    ensures 0 <= r <= DATA_PAYLOAD_LENGTH && (r > 0 <==> window > 0)
  {
    if window > 0 then
      if window < DATA_PAYLOAD_LENGTH then window else DATA_PAYLOAD_LENGTH
    else 0
  }

  /** As much as the window and a frame hold. */
  lemma ReadLimitExact(window: int, n: nat)
    requires n > 0
    ensures n <= ReadLimit(window) <==> n <= window && n <= 4096
  {
  }

  /** memcpy into a buffer. */
  method Put(buf: array<byte>, at: nat, s: seq<byte>)
    requires at + |s| <= buf.Length
    modifies buf
    ensures buf[..] == old(buf[..at]) + s + old(buf[at + |s|..])
  {
    forall i | 0 <= i < |s| {
      buf[at + i] := s[i];
    }
  }
}
