/** The fixed command templates of the CIPURSE façade: GET CHALLENGE, MUTUAL
    AUTHENTICATE, SELECT FILE and READ BINARY, each with the Le request it is
    sent with. */
module Commands {
  import opened Iso7816

  /** A command as handed to the exchange: the APDU, whether an Le field is
      sent, and the Le value asked for (0 meaning "as much as there is"). */
  datatype Command = Command(apdu: Apdu, includeLe: bool, le: uint16)

  /** Longest command data the exchange accepts. */
  const MaxCommandData: nat := 228
  /** Card random material returned by GET CHALLENGE: 16 + 6 bytes. */
  const ChallengeLength: uint16 := 0x16
  /** Card cryptogram returned by MUTUAL AUTHENTICATE. */
  const CryptogramLength: uint16 := 0x10

  const InsGetChallenge: uint8 := 0x84
  const InsMutualAuthenticate: uint8 := 0x82
  const InsSelectFile: uint8 := 0xA4
  const InsReadBinary: uint8 := 0xB0

  /** The big-endian value of a two-byte field. */
  function BigEndian16(b: seq<uint8>): uint16
    requires |b| == 2
  {
    (b[0] as int) * 0x100 + b[1]
  }

  function ChallengeCommand(): (c: Command)
    ensures c.apdu == Apdu(0x00, InsGetChallenge, 0x00, 0x00, 0, [])
    ensures c.includeLe && c.le == ChallengeLength
  {
    Command(Apdu(0x00, 0x84, 0x00, 0x00, 0x00, []), true, 0x16)
  }

  function MutualAuthenticateCommand(keyIndex: uint8, params: seq<uint8>): (c: Command)
    requires |params| < 0x100
    ensures c.apdu.cla == 0x00 && c.apdu.ins == InsMutualAuthenticate && c.apdu.p1 == 0x00
    ensures c.apdu.p2 == keyIndex
    ensures c.apdu.lc == |c.apdu.data| && c.apdu.data == params
    ensures c.includeLe && c.le == CryptogramLength
  {
    Command(Apdu(0x00, 0x82, 0x00, keyIndex, |params|, params), true, 0x10)
  }

  function SelectFileCommand(fileId: uint16): (c: Command)
    ensures c.apdu.cla == 0x00 && c.apdu.ins == InsSelectFile && c.apdu.p1 == 0x00 && c.apdu.p2 == 0x00
    ensures c.apdu.lc == 2 && |c.apdu.data| == 2 && BigEndian16(c.apdu.data) == fileId
    ensures c.includeLe && c.le == 0
  {
    // high byte (fileID >> 8), then low byte (fileID & 0xff)
    Command(Apdu(0x00, 0xA4, 0x00, 0x00, 2, [fileId / 0x100, fileId % 0x100]), true, 0)
  }

  /** P1 P2 carry a 15-bit offset: the top bit of P1 is masked off. */
  function ReadBinaryCommand(offset: uint16): (c: Command)
    ensures c.apdu.cla == 0x00 && c.apdu.ins == InsReadBinary
    ensures c.apdu.p1 <= 0x7F && c.apdu.p1 * 0x100 + c.apdu.p2 == offset % 0x8000
    ensures c.apdu.lc == 0 && c.apdu.data == []
    ensures c.includeLe && c.le == 0
  {
    // P1 = (offset >> 8) & 0x7f, P2 = offset & 0xff
    Command(Apdu(0x00, 0xB0, (offset / 0x100) % 0x80, offset % 0x100, 0, []), true, 0)
  }

  /** Reading file attributes is a stub: it always reports failure and sends nothing. */
  function ReadFileAttributes(): (code: int)
    ensures code != 0
  {
    2
  }
}
