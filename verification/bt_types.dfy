/** Fixed-width integers and the BitTorrent identifiers shared by the
    peer manager and the handshake filters. */
module BtTypes {

  newtype byte = x: int | 0 <= x < 0x100

  type u16 = x: int | 0 <= x < 0x1_0000

  type u64 = x: int | 0 <= x < 0x1_0000_0000_0000_0000

  /** Length in bytes of an info hash (a SHA-1 digest). */
  const INFO_HASH_LEN: nat := 20

  /** Length in bytes of a peer id. */
  const PEER_ID_LEN: nat := 20

  type InfoHash = s: seq<byte> | |s| == INFO_HASH_LEN witness seq(20, _ => 0)

  type PeerId = s: seq<byte> | |s| == PEER_ID_LEN witness seq(20, _ => 0)

  /** The identifier made of `INFO_HASH_LEN` copies of one byte, as in `[55u8; 20]`. */
  function RepeatedHash(b: byte): InfoHash
  {
    seq(INFO_HASH_LEN, _ => b)
  }
}
