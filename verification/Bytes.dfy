/** Bytes, control characters and block geometry shared by both peers. */
module Bytes {

  type byte = b: int | 0 <= b < 256
  type Data = seq<byte>

  const SOH: byte := 0x01
  const EOT: byte := 0x04
  const ACK: byte := 0x06
  const NAK: byte := 0x15
  const CAN: byte := 0x18
  const CTRL_Z: byte := 0x1A
  // 'C', the byte with which the receiver asks for a transfer with CRC
  const CHAR_C: byte := 0x43

  // Consecutive errors allowed before a peer gives up.
  const ERR_BOUND: nat := 10

  const CHUNK_SZ: nat := 128
  const DATA_POS: nat := 3
  const PAST_CHUNK: nat := 131
  const BLK_SZ: nat := 133
  const REST_BLK_SZ: nat := 132
  const BUF_SZ: nat := 163

  /** `n` copies of `b`. */
  function Fill(n: nat, b: byte): (s: Data)
    ensures |s| == n
  {
    seq(n, _ => b)
  }

  /** The bitwise complement of a byte. */
  function Complement(b: byte): byte
  {
    255 - b
  }

  /** The successor of an 8-bit number, which wraps. */
  function Succ(b: byte): byte
  {
    (b + 1) % 256
  }

  /** The 8-bit number that the sender gives to block `k` of a file. */
  function NumOf(k: nat): byte
  {
    k % 256
  }
}
