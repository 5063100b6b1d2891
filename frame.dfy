/** The 6-byte command header that sendCommand and receiveCommand put in front of the
    data bytes, and the length field of a reply header. */
module Frame {
  import opened Bytes

  /** Flags byte of sendCommand: write, wants a reply. */
  const WriteFlags: byte := 0x40
  /** Flags byte of receiveCommand: read, wants a reply. */
  const ReadFlags: byte := 0xC0
  /** Report id handed to sendReport by both commands. */
  const ReportId: byte := 0x00

  /** A Uint8Array stores each element modulo 256. */
  function ToUint8(x: nat): byte
  {
    (x % 256) as byte
  }

  /** The Uint8Array built by sendCommand (flags 0x40) and receiveCommand (flags 0xC0):
      flags, sequence byte 0, length LSB = data.length + 2 stored in a byte, length MSB
      written as the constant 0, command byte, group byte, then the data. */
  function BuildFrame(flags: byte, groupByte: byte, commandByte: byte, data: seq<byte>): seq<byte>
  {
    [flags, 0x00, ToUint8(|data| + 2), 0x00, commandByte, groupByte] + data
  }

  /** `(header[3] << 8) | header[2]`: the declared payload length of a reply.
      header[3] << 8 has its low byte clear, so the `|` adds header[2]. */
  function DeclaredLength(header: seq<byte>): (n: nat)
    requires |header| >= 4
    ensures n < 0x1_0000
    ensures n % 256 == header[2] as int && n / 256 == header[3] as int
  {
    header[3] as int * 256 + header[2] as int
  }

  /** A frame is the fixed header followed by the unchanged data. */
  lemma FrameLayout(flags: byte, groupByte: byte, commandByte: byte, data: seq<byte>)
    ensures var f := BuildFrame(flags, groupByte, commandByte, data);
      |f| == |data| + 6 &&
      f[0] == flags && f[1] == 0x00 && f[3] == 0x00 &&
      f[4] == commandByte && f[5] == groupByte &&
      f[6..] == data
  {
  }

  /** Reading a frame's length field back gives data.length + 2 modulo 256: it gives
      data.length + 2 exactly when the data is at most 253 bytes, because the MSB is
      always written as 0 and the LSB wraps. */
  lemma FrameLengthField(flags: byte, groupByte: byte, commandByte: byte, data: seq<byte>)
    ensures var f := BuildFrame(flags, groupByte, commandByte, data);
      DeclaredLength(f) == (|data| + 2) % 256 &&
      (DeclaredLength(f) == |data| + 2 <==> |data| <= 253)
  {
  }

  /** The reply length a header declares determines its two length bytes. */
  lemma DeclaredLengthInjective(h1: seq<byte>, h2: seq<byte>)
    requires |h1| >= 4 && |h2| >= 4
    ensures DeclaredLength(h1) == DeclaredLength(h2) <==> h1[2] == h2[2] && h1[3] == h2[3]
  {
  }
}
