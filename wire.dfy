/**
 * RTL-TCP command framing: every command is one opcode byte followed by a
 * 4-byte big-endian parameter, unsigned for every opcode except frequency
 * correction, whose parameter is a signed (two's-complement) 32-bit value.
 */
module Wire {
  import opened Wrappers

  newtype byte = b: int | 0 <= b < 256

  const SET_FREQ: byte := 0x01
  const SET_SAMPLE_RATE: byte := 0x02
  /** Parameter 0 selects hardware AGC, 1 selects manual gain. */
  const SET_GAIN_MODE: byte := 0x03
  /** Parameter is the gain in tenths of a dB. */
  const SET_GAIN: byte := 0x04
  const SET_FREQ_CORRECTION: byte := 0x05

  const TWO_31: int := 0x8000_0000
  const TWO_32: int := 0x1_0000_0000

  const FRAME_LENGTH: nat := 5

  predicate IsU32(v: int) { 0 <= v < TWO_32 }

  predicate IsI32(v: int) { -TWO_31 <= v < TWO_31 }

  /** Whether the parameter of `cmd` is packed as a signed integer. */
  predicate IsSigned(cmd: byte) { cmd == SET_FREQ_CORRECTION }

  /** Whether `value` fits the parameter field of `cmd` (otherwise packing fails). */
  predicate Encodable(cmd: byte, value: int)
  {
    if IsSigned(cmd) then IsI32(value) else IsU32(value)
  }

  /** The unsigned value of four bytes read most significant first. */
  function Value32(bs: seq<byte>): (u: int)
    requires |bs| == 4
    ensures IsU32(u)
  {
    bs[0] as int * 0x100_0000 + bs[1] as int * 0x1_0000 + bs[2] as int * 0x100 + bs[3] as int
  }

  /** The four bytes, most significant first, of an unsigned 32-bit value. */
  function BigEndian32(u: int): (bs: seq<byte>)
    requires IsU32(u)
    ensures |bs| == 4
    ensures Value32(bs) == u
  {
    [(u / 0x100_0000) as byte, (u / 0x1_0000 % 0x100) as byte,
     (u / 0x100 % 0x100) as byte, (u % 0x100) as byte]
  }

  /** The 32-bit two's-complement bit pattern of a signed value. */
  function TwosComplement(v: int): (u: int)
    requires IsI32(v)
    ensures IsU32(u)
    ensures (u - v) % TWO_32 == 0
    ensures (u >= TWO_31) == (v < 0)
  {
    if v < 0 then v + TWO_32 else v
  }

  /** The signed value of a 32-bit two's-complement bit pattern. */
  function Signed(u: int): (v: int)
    requires IsU32(u)
    ensures IsI32(v)
    ensures (u - v) % TWO_32 == 0
    ensures (v < 0) == (u >= TWO_31)
  {
    if u >= TWO_31 then u - TWO_32 else u
  }

  /** The frame `send_command` writes, or None when the value does not pack. */
  function EncodeCommand(cmd: byte, value: int): (r: Option<seq<byte>>)
    ensures r.Some? <==> Encodable(cmd, value)
    ensures r.Some? ==> |r.value| == FRAME_LENGTH && r.value[0] == cmd
  {
    if !Encodable(cmd, value) then None
    else if IsSigned(cmd) then Some([cmd] + BigEndian32(TwosComplement(value)))
    else Some([cmd] + BigEndian32(value))
  }

  /** How the server reads a frame: the opcode and its parameter. */
  function DecodeCommand(frame: seq<byte>): (r: Option<(byte, int)>)
    ensures r.Some? <==> |frame| == FRAME_LENGTH
    ensures r.Some? ==> r.value.0 == frame[0] && Encodable(r.value.0, r.value.1)
  {
    if |frame| != FRAME_LENGTH then None
    else
      var u := Value32(frame[1..]);
      Some((frame[0], if IsSigned(frame[0]) then Signed(u) else u))
  }

  lemma DivModUnique(n: int, m: int, q: int, r: int)
    requires m in {0x100, 0x1_0000, 0x100_0000} && 0 <= r < m && n == q * m + r
    ensures n / m == q && n % m == r
  {
    if m == 0x100 {
      assert n == q * 0x100 + r;
    } else if m == 0x1_0000 {
      assert n == q * 0x1_0000 + r;
    } else {
      assert n == q * 0x100_0000 + r;
    }
  }

  lemma BigEndianOfValue(bs: seq<byte>)
    requires |bs| == 4
    ensures BigEndian32(Value32(bs)) == bs
  {
    var b0, b1, b2, b3 := bs[0] as int, bs[1] as int, bs[2] as int, bs[3] as int;
    var u := Value32(bs);
    DivModUnique(u, 0x100_0000, b0, b1 * 0x1_0000 + b2 * 0x100 + b3);
    DivModUnique(u, 0x1_0000, b0 * 0x100 + b1, b2 * 0x100 + b3);
    DivModUnique(b0 * 0x100 + b1, 0x100, b0, b1);
    DivModUnique(u, 0x100, b0 * 0x1_0000 + b1 * 0x100 + b2, b3);
    DivModUnique(b0 * 0x1_0000 + b1 * 0x100 + b2, 0x100, b0 * 0x100 + b1, b2);
  }

  lemma SignedOfTwosComplement(v: int)
    requires IsI32(v)
    ensures Signed(TwosComplement(v)) == v
  {
  }

  lemma TwosComplementOfSigned(u: int)
    requires IsU32(u)
    ensures TwosComplement(Signed(u)) == u
  {
  }

  /** The server recovers exactly the opcode and parameter that were sent. */
  lemma DecodeEncode(cmd: byte, value: int)
    requires Encodable(cmd, value)
    ensures DecodeCommand(EncodeCommand(cmd, value).value) == Some((cmd, value))
  {
    var frame := EncodeCommand(cmd, value).value;
    assert frame[1..] == (if IsSigned(cmd) then BigEndian32(TwosComplement(value)) else BigEndian32(value));
    if IsSigned(cmd) {
      SignedOfTwosComplement(value);
    }
  }

  /** Every well-formed frame is the encoding of what it decodes to. */
  lemma EncodeDecode(frame: seq<byte>)
    requires |frame| == FRAME_LENGTH
    ensures EncodeCommand(DecodeCommand(frame).value.0, DecodeCommand(frame).value.1) == Some(frame)
  {
    var u := Value32(frame[1..]);
    BigEndianOfValue(frame[1..]);
    if IsSigned(frame[0]) {
      TwosComplementOfSigned(u);
    }
    assert frame == [frame[0]] + frame[1..];
  }

  /** Frequency correction packs a negative parameter as its two's complement. */
  lemma NegativeCorrectionLayout(ppm: int)
    requires -TWO_31 <= ppm < 0
    ensures EncodeCommand(SET_FREQ_CORRECTION, ppm).Some?
    ensures Value32(EncodeCommand(SET_FREQ_CORRECTION, ppm).value[1..]) == ppm + TWO_32
  {
    var frame := EncodeCommand(SET_FREQ_CORRECTION, ppm).value;
    assert frame[1..] == BigEndian32(ppm + TWO_32);
  }
}
