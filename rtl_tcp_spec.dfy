/**
 * The RTL-TCP client as a value: its flags, the socket abstracted as the bytes
 * written on it, the outcome of each coming send and the bytes the server will
 * still deliver, and one pure transition per client operation. The class in module RtlTcp is proved to
 * follow these transitions.
 */
module RtlTcpSpec {
  import opened Wrappers
  import opened Wire

  /** Largest number of bytes one recv call asks for. */
  const RECV_BUFFER_SIZE: nat := 65536

  /**
   * hasSocket: a socket object exists (set by the first connect attempt);
   * sent: every byte written on the current socket;
   * sendResults: what each coming `socket.send` does, in order: true writes
   * the frame, false raises; once the list is used up every send raises;
   * bursts: the bytes the server will deliver, split where a recv times out.
   * The first burst is what arrives before the next timeout; after the last
   * one the server has closed the stream, and recv returns nothing.
   */
  datatype Client = Client(
    hasSocket: bool,
    connected: bool,
    agcEnabled: bool,
    currentGain: real,
    sent: seq<byte>,
    sendResults: seq<bool>,
    bursts: seq<seq<byte>>)

  /** A client can only be connected through a socket. */
  predicate WellFormed(c: Client) { c.connected ==> c.hasSocket }

  const INITIAL: Client := Client(false, false, false, 0.0, [], [], [])

  /** A list without its first element; the empty list stays empty. */
  function Rest<T>(s: seq<T>): (r: seq<T>)
    ensures s != [] ==> r == s[1..]
    ensures s == [] ==> r == []
  {
    if s == [] then [] else s[1..]
  }

  /** Whether the next send call writes its frame. */
  predicate NextSendDelivers(c: Client) { c.sendResults != [] && c.sendResults[0] }

  /** The bytes that arrive before the next timeout or the close of the stream. */
  function Available(c: Client): seq<byte> { if c.bursts == [] then [] else c.bursts[0] }

  /** Python's int() of a float: truncation toward zero. */
  function Truncate(x: real): (n: int)
    ensures x >= 0.0 ==> n as real <= x < n as real + 1.0
    ensures x < 0.0 ==> n as real - 1.0 < x <= n as real
  {
    if x >= 0.0 then x.Floor else -((-x).Floor)
  }

  /** The gain parameter of `set_gain`: the gain in dB times ten, truncated toward zero. */
  function TenthsOfDb(gainDb: real): (t: int)
    ensures gainDb >= 0.0 ==> t as real <= gainDb * 10.0 < t as real + 1.0
    ensures gainDb < 0.0 ==> t as real - 1.0 < gainDb * 10.0 <= t as real
  {
    Truncate(gainDb * 10.0)
  }

  /**
   * Opening a fresh socket. `reachable` says whether the server accepts the
   * connection; `sendResults` and `bursts` describe how that connection will
   * behave. A failed attempt still replaces the socket, with nothing to write
   * to or read from, and leaves `connected` as it was.
   */
  function Connect(c: Client, reachable: bool, sendResults: seq<bool>, bursts: seq<seq<byte>>): (r: (bool, Client))
    ensures r.0 == reachable
    ensures r.1.hasSocket && r.1.sent == []
    ensures r.1.connected == (reachable || c.connected)
    ensures reachable ==> r.1.sendResults == sendResults && r.1.bursts == bursts
    ensures !reachable ==> r.1.sendResults == [] && r.1.bursts == []
    ensures r.1.agcEnabled == c.agcEnabled && r.1.currentGain == c.currentGain
  {
    if reachable then
      (true, c.(hasSocket := true, connected := true, sent := [], sendResults := sendResults, bursts := bursts))
    else
      (false, c.(hasSocket := true, sent := [], sendResults := [], bursts := []))
  }

  /**
   * `send_command`: pack one frame and write it. A value that does not pack
   * fails before the socket is used; otherwise one send call is made and its
   * outcome is the next entry of `sendResults`.
   */
  function SendCommand(c: Client, cmd: byte, value: int): (r: (bool, Client))
    ensures r.0 <==> c.connected && Encodable(cmd, value) && NextSendDelivers(c)
    ensures c.connected && Encodable(cmd, value) ==> r.1.sendResults == Rest(c.sendResults)
    ensures !(c.connected && Encodable(cmd, value)) ==> r.1 == c
    ensures !r.0 ==> r.1.sent == c.sent
    ensures r.1 == c.(sent := r.1.sent, sendResults := r.1.sendResults)
  {
    if !c.connected then (false, c)
    else match EncodeCommand(cmd, value)
      case None => (false, c)
      case Some(frame) =>
        if NextSendDelivers(c) then (true, c.(sent := c.sent + frame, sendResults := c.sendResults[1..]))
        else (false, c.(sendResults := Rest(c.sendResults)))
  }

  /** A successful send appends exactly one 5-byte frame, which decodes to the command and its value. */
  lemma SendCommandWritesFrame(c: Client, cmd: byte, value: int)
    requires SendCommand(c, cmd, value).0
    ensures var s := SendCommand(c, cmd, value).1.sent;
      |s| == |c.sent| + FRAME_LENGTH && s[..|c.sent|] == c.sent
      && DecodeCommand(s[|c.sent|..]) == Some((cmd, value))
  {
    var frame := EncodeCommand(cmd, value).value;
    DecodeEncode(cmd, value);
    assert (c.sent + frame)[|c.sent|..] == frame;
  }

  /**
   * A failed send does not end the connection: when the next send call goes
   * through, the following command is written.
   */
  lemma SendRecoversAfterFailure(c: Client, cmd: byte, value: int)
    requires c.connected && Encodable(cmd, value)
    requires |c.sendResults| >= 2 && !c.sendResults[0] && c.sendResults[1]
    ensures var first := SendCommand(c, cmd, value);
      && !first.0 && first.1.sent == c.sent
      && SendCommand(first.1, cmd, value).0
      && SendCommand(first.1, cmd, value).1.sent == c.sent + EncodeCommand(cmd, value).value
  {
    var first := SendCommand(c, cmd, value);
    assert first.1.sendResults == c.sendResults[1..];
  }

  /** `set_gain_mode`: 1 selects manual gain, 0 hardware AGC; the flag follows a successful send. */
  function SetGainMode(c: Client, manual: bool): (r: (bool, Client))
    ensures r.0 == SendCommand(c, SET_GAIN_MODE, if manual then 1 else 0).0
    ensures r.1.agcEnabled == (if r.0 then !manual else c.agcEnabled)
    ensures r.1.sent == SendCommand(c, SET_GAIN_MODE, if manual then 1 else 0).1.sent
    ensures r.1.sendResults == SendCommand(c, SET_GAIN_MODE, if manual then 1 else 0).1.sendResults
    ensures r.1 == c.(sent := r.1.sent, sendResults := r.1.sendResults, agcEnabled := r.1.agcEnabled)
  {
    var (ok, c1) := SendCommand(c, SET_GAIN_MODE, if manual then 1 else 0);
    if ok then (true, c1.(agcEnabled := !manual)) else (false, c1)
  }

  /** `set_gain`: refused while AGC is on; the recorded gain follows a successful send. */
  function SetGain(c: Client, gainDb: real): (r: (bool, Client))
    ensures c.agcEnabled ==> !r.0 && r.1 == c
    ensures !c.agcEnabled ==> r.0 == SendCommand(c, SET_GAIN, TenthsOfDb(gainDb)).0
    ensures !c.agcEnabled ==> r.1.sent == SendCommand(c, SET_GAIN, TenthsOfDb(gainDb)).1.sent
    ensures !c.agcEnabled ==> r.1.sendResults == SendCommand(c, SET_GAIN, TenthsOfDb(gainDb)).1.sendResults
    ensures r.1.currentGain == (if r.0 then gainDb else c.currentGain)
    ensures r.1 == c.(sent := r.1.sent, sendResults := r.1.sendResults, currentGain := r.1.currentGain)
  {
    if c.agcEnabled then (false, c)
    else
      var (ok, c1) := SendCommand(c, SET_GAIN, TenthsOfDb(gainDb));
      if ok then (true, c1.(currentGain := gainDb)) else (false, c1)
  }

  /**
   * Number of bytes `read_samples(n)` waits for: two per sample, and none for
   * a count that is not positive (the receive loop then does not run).
   */
  function BytesNeeded(n: int): (needed: nat)
    ensures needed % 2 == 0
    ensures needed / 2 == if n > 0 then n else 0
  {
    if n > 0 then 2 * n else 0
  }

  /** One byte of the I/Q stream as a component in [-1, 1]. */
  function Component(b: byte): (x: real)
    ensures x == (2.0 * b as real - 255.0) / 255.0
    ensures -1.0 <= x <= 1.0
  {
    (b as real - 127.5) / 127.5
  }

  /** The byte a component in [-1, 1] came from. */
  function Requantize(x: real): int
  {
    (x * 127.5 + 127.5).Floor
  }

  lemma RequantizeComponent(b: byte)
    ensures Requantize(Component(b)) == b as int
  {
    assert Component(b) * 127.5 + 127.5 == b as real;
  }

  /** One complex baseband sample. */
  datatype IQ = IQ(i: real, q: real)

  /** Interleaved I/Q bytes as samples: even positions are I, odd positions Q. */
  function Deinterleave(data: seq<byte>): (s: seq<IQ>)
    requires |data| % 2 == 0
    ensures |s| == |data| / 2
    ensures forall k :: 0 <= k < |s| ==> s[k] == IQ(Component(data[2 * k]), Component(data[2 * k + 1]))
  {
    if data == [] then []
    else [IQ(Component(data[0]), Component(data[1]))] + Deinterleave(data[2..])
  }

  /** The bytes a block of samples was read from. */
  function Interleave(s: seq<IQ>): (data: seq<int>)
    ensures |data| == 2 * |s|
  {
    if s == [] then [] else [Requantize(s[0].i), Requantize(s[0].q)] + Interleave(s[1..])
  }

  /** No information is lost converting bytes to samples. */
  lemma {:induction false} InterleaveDeinterleave(data: seq<byte>)
    requires |data| % 2 == 0
    ensures Interleave(Deinterleave(data)) == seq(|data|, k requires 0 <= k < |data| => data[k] as int)
  {
    if data != [] {
      InterleaveDeinterleave(data[2..]);
      RequantizeComponent(data[0]);
      RequantizeComponent(data[1]);
      assert Deinterleave(data)[1..] == Deinterleave(data[2..]);
    }
  }

  /** The bytes left once `k` of those available have been read. */
  function Consume(bursts: seq<seq<byte>>, k: nat): seq<seq<byte>>
    requires bursts == [] ==> k == 0
    requires bursts != [] ==> k <= |bursts[0]|
  {
    if bursts == [] then [] else [bursts[0][k..]] + bursts[1..]
  }

  /**
   * `read_samples(n)`: nothing unless connected; otherwise it reads until 2n
   * bytes have arrived. A recv that times out or finds the stream closed ends
   * the read with nothing: the bytes of that short read are dropped, and a
   * later read continues with what arrives after the timeout.
   */
  function ReadSamples(c: Client, n: int): (r: (Option<seq<IQ>>, Client))
    ensures r.0.Some? <==> c.connected && |Available(c)| >= BytesNeeded(n)
    ensures r.0.Some? ==> |r.0.value| == BytesNeeded(n) / 2
    ensures r.0.Some? ==> forall k :: 0 <= k < |r.0.value| ==>
      r.0.value[k] == IQ(Component(Available(c)[2 * k]), Component(Available(c)[2 * k + 1]))
    ensures r.0.Some? && c.bursts != [] ==> r.1.bursts == [c.bursts[0][BytesNeeded(n)..]] + c.bursts[1..]
    ensures r.0.Some? && c.bursts == [] ==> r.1 == c
    ensures !c.connected ==> r.1 == c
    ensures c.connected && r.0.None? ==> r.1.bursts == Rest(c.bursts)
    ensures r.1 == c.(bursts := r.1.bursts)
  {
    var need := BytesNeeded(n);
    var avail := Available(c);
    if !c.connected then (None, c)
    else if |avail| < need then (None, c.(bursts := Rest(c.bursts)))
    else (Some(Deinterleave(avail[..need])), c.(bursts := Consume(c.bursts, need)))
  }

  /** A successful read consumes exactly 2n bytes, and the samples give those bytes back. */
  lemma ReadSamplesLossless(c: Client, n: int)
    requires ReadSamples(c, n).0.Some?
    ensures var data := Available(c)[..BytesNeeded(n)];
      && Interleave(ReadSamples(c, n).0.value) == seq(|data|, k requires 0 <= k < |data| => data[k] as int)
      && data + Available(ReadSamples(c, n).1) == Available(c)
  {
    InterleaveDeinterleave(Available(c)[..BytesNeeded(n)]);
  }

  /**
   * A timed-out read does not end the stream: the read after it gets the
   * bytes that arrive next.
   */
  lemma ReadResumesAfterTimeout(c: Client, n: int)
    requires c.connected && |c.bursts| >= 2
    requires |c.bursts[0]| < BytesNeeded(n) <= |c.bursts[1]|
    ensures var first := ReadSamples(c, n);
      && first.0 == None
      && ReadSamples(first.1, n).0 == Some(Deinterleave(c.bursts[1][..BytesNeeded(n)]))
  {
    var first := ReadSamples(c, n);
    assert Available(first.1) == c.bursts[1];
  }

  /** `disconnect`: closes the socket if there is one. */
  function Disconnect(c: Client): (r: Client)
    requires WellFormed(c)
    ensures WellFormed(r) && !r.connected
    ensures r.agcEnabled == c.agcEnabled && r.currentGain == c.currentGain && r.sent == c.sent
  {
    if c.hasSocket then c.(connected := false, sendResults := [], bursts := []) else c
  }

  lemma DisconnectIdempotent(c: Client)
    requires WellFormed(c)
    ensures Disconnect(Disconnect(c)) == Disconnect(c)
  {
  }

  /** Disconnected, no command can be sent and no sample read. */
  lemma DisconnectSilences(c: Client, cmd: byte, value: int, n: int)
    requires WellFormed(c)
    ensures SendCommand(Disconnect(c), cmd, value) == (false, Disconnect(c))
    ensures ReadSamples(Disconnect(c), n) == (None, Disconnect(c))
  {
  }

  /** The endpoints of the component range, and the byte just above the midpoint. */
  lemma ComponentValues()
    ensures Component(0) == -1.0 && Component(255) == 1.0
    ensures Component(128) == 1.0 / 255.0
  {
  }

  /** The mapping from bytes to components is strictly increasing. */
  lemma ComponentMonotonic(a: byte, b: byte)
    requires a < b
    ensures Component(a) < Component(b)
  {
  }
}
