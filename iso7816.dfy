/** Conventions of ISO/IEC 7816-4 that the CIPURSE transport layer relies on:
    byte-sized header fields, the command APDU of section 5.1 and the two
    status bytes of section 5.6. */
module Iso7816 {

  type uint8 = x: int | 0 <= x < 0x100
  type uint16 = x: int | 0 <= x < 0x1_0000

  /** SW1 SW2 = 90 00: normal processing. */
  const SwSuccess: uint16 := 0x9000
  /** SW1 = 61: the command succeeded and SW2 more response bytes are waiting. */
  const SwMoreData: uint8 := 0x61

  function Sw1(sw: uint16): uint8 { sw / 0x100 }
  function Sw2(sw: uint16): uint8 { sw % 0x100 }

  /** The status word carried by the two trailing bytes of a response. */
  function StatusWord(sw1: uint8, sw2: uint8): (sw: uint16)
    ensures Sw1(sw) == sw1 && Sw2(sw) == sw2
  {
    sw1 * 0x100 + sw2
  }

  /** Every status word is the one its two bytes spell. */
  lemma StatusWordOfBytes(sw: uint16)
    ensures StatusWord(Sw1(sw), Sw2(sw)) == sw
  {
  }

  predicate IsMoreData(sw: uint16) {
    Sw1(sw) == SwMoreData
  }

  /** A command APDU: the header CLA INS P1 P2, the Lc byte and the command data. */
  datatype Apdu = Apdu(cla: uint8, ins: uint8, p1: uint8, p2: uint8, lc: uint8, data: seq<uint8>)
}
