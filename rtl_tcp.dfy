/**
 * The RTL-TCP client object. Its fields are the flags the source keeps and the
 * socket seen as a byte sink (`sent`, with the outcome of each coming send in
 * `sendResults`) and a byte source (`bursts`); every
 * method is proved to move the object exactly as the matching transition of
 * RtlTcpSpec does.
 */
module RtlTcp {
  import opened Wrappers
  import opened Wire
  import Spec = RtlTcpSpec

  class RtlTcpClient {
    var hasSocket: bool
    var connected: bool
    var agcEnabled: bool
    var currentGain: real
    var sent: seq<byte>
    var sendResults: seq<bool>
    var bursts: seq<seq<byte>>

    /** The client's state as a value. */
    function Model(): Spec.Client
      reads this
    {
      Spec.Client(hasSocket, connected, agcEnabled, currentGain, sent, sendResults, bursts)
    }

    ghost predicate Valid()
      reads this
    {
      Spec.WellFormed(Model())
    }

    constructor ()
      ensures Valid() && Model() == Spec.INITIAL
    {
      hasSocket, connected, agcEnabled, currentGain := false, false, false, 0.0;
      sent, sendResults, bursts := [], [], [];
    }

    method Connect(reachable: bool, results: seq<bool>, stream: seq<seq<byte>>) returns (ok: bool)
      requires Valid()
      modifies this
      ensures Valid()
      ensures (ok, Model()) == Spec.Connect(old(Model()), reachable, results, stream)
    {
      hasSocket := true;
      sent := [];
      if reachable {
        connected, sendResults, bursts := true, results, stream;
        ok := true;
      } else {
        sendResults, bursts := [], [];
        ok := false;
      }
    }

    method SendCommand(cmd: byte, value: int) returns (ok: bool)
      requires Valid()
      modifies this
      ensures Valid()
      ensures (ok, Model()) == Spec.SendCommand(old(Model()), cmd, value)
    {
      if !connected {
        return false;
      }
      var frame := EncodeCommand(cmd, value);
      if frame.None? {
        return false;
      }
      var delivered := sendResults != [] && sendResults[0];
      sendResults := Spec.Rest(sendResults);
      if !delivered {
        return false;
      }
      sent := sent + frame.value;
      ok := true;
    }

    method SetFrequency(freqHz: int) returns (ok: bool)
      requires Valid()
      modifies this
      ensures Valid()
      ensures (ok, Model()) == Spec.SendCommand(old(Model()), SET_FREQ, freqHz)
    {
      ok := SendCommand(SET_FREQ, freqHz);
    }

    method SetSampleRate(rateHz: int) returns (ok: bool)
      requires Valid()
      modifies this
      ensures Valid()
      ensures (ok, Model()) == Spec.SendCommand(old(Model()), SET_SAMPLE_RATE, rateHz)
    {
      ok := SendCommand(SET_SAMPLE_RATE, rateHz);
    }

    method SetGainMode(manual: bool) returns (ok: bool)
      requires Valid()
      modifies this
      ensures Valid()
      ensures (ok, Model()) == Spec.SetGainMode(old(Model()), manual)
    {
      ok := SendCommand(SET_GAIN_MODE, if manual then 1 else 0);
      if ok {
        agcEnabled := !manual;
      }
    }

    method SetGain(gainDb: real) returns (ok: bool)
      requires Valid()
      modifies this
      ensures Valid()
      ensures (ok, Model()) == Spec.SetGain(old(Model()), gainDb)
    {
      if agcEnabled {
        return false;
      }
      ok := SendCommand(SET_GAIN, Spec.TenthsOfDb(gainDb));
      if ok {
        currentGain := gainDb;
      }
    }

    method SetFreqCorrection(ppm: int) returns (ok: bool)
      requires Valid()
      modifies this
      ensures Valid()
      ensures (ok, Model()) == Spec.SendCommand(old(Model()), SET_FREQ_CORRECTION, ppm)
    {
      ok := SendCommand(SET_FREQ_CORRECTION, ppm);
    }

    method EnableHardwareAgc() returns (ok: bool)
      requires Valid()
      modifies this
      ensures Valid()
      ensures (ok, Model()) == Spec.SetGainMode(old(Model()), false)
    {
      ok := SetGainMode(false);
    }

    method DisableHardwareAgc() returns (ok: bool)
      requires Valid()
      modifies this
      ensures Valid()
      ensures (ok, Model()) == Spec.SetGainMode(old(Model()), true)
    {
      ok := SetGainMode(true);
    }

    /**
     * Reads until 2n bytes have arrived, asking each recv for at most
     * RECV_BUFFER_SIZE bytes; a recv that finds nothing more before the next
     * timeout or the close of the stream ends the read.
     */
    method ReadSamples(n: int) returns (samples: Option<seq<Spec.IQ>>)
      requires Valid()
      modifies this
      ensures Valid()
      ensures (samples, Model()) == Spec.ReadSamples(old(Model()), n)
    {
      if !connected {
        return None;
      }
      var needed := Spec.BytesNeeded(n);
      var data: seq<byte> := [];
      var rest := if bursts == [] then [] else bursts[0];
      while |data| < needed
        invariant |data| <= needed
        invariant data + rest == Spec.Available(Model())
        decreases needed - |data|
      {
        var want := if Spec.RECV_BUFFER_SIZE < needed - |data| then Spec.RECV_BUFFER_SIZE else needed - |data|;
        var chunk := if want < |rest| then rest[..want] else rest;
        rest := rest[|chunk|..];
        if chunk == [] {
          break;
        }
        data := data + chunk;
      }
      if |data| < needed {
        bursts := Spec.Rest(bursts);
        return None;
      }
      if bursts != [] {
        bursts := [rest] + bursts[1..];
      }
      assert data == Spec.Available(old(Model()))[..needed];
      samples := Some(Spec.Deinterleave(data));
    }

    method Disconnect()
      requires Valid()
      modifies this
      ensures Valid()
      ensures Model() == Spec.Disconnect(old(Model()))
    {
      if hasSocket {
        connected, sendResults, bursts := false, [], [];
      }
    }
  }
}
