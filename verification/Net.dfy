/** Values shared by the packet-handling modules. */
module Net {
  type Byte = b: int | 0 <= b < 0x100

  type Word = w: nat | w < 0x1_0000

  /** The number that two bytes denote, most significant first. */
  function BigEndian(hi: Byte, lo: Byte): Word {
    (hi as int) * 0x100 + lo as int
  }

  function Hi(w: Word): Byte {
    w / 0x100
  }

  function Lo(w: Word): Byte {
    w % 0x100
  }

  type Octets4 = s: seq<Byte> | |s| == 4 witness [0, 0, 0, 0]

  type Octets16 = s: seq<Byte> | |s| == 16 witness seq(16, _ => 0)

  datatype IpAddr = V4(v4: Octets4) | V6(v6: Octets16)

  datatype SocketAddr = SocketAddr(ip: IpAddr, port: Word)

  datatype Option<+T> = None | Some(value: T)
}
