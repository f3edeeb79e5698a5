/**
 * The live FM player's control surface: a `running` flag and a configuration
 * record in front of the RTL-TCP client and the audio player. Settings are
 * always recorded and reach the hardware only while streaming.
 */
module Live {
  import opened Wrappers
  import opened Wire
  import Spec = RtlTcpSpec
  import opened LiveSpec
  import RtlTcp
  import Playback

  class LiveFmPlayer {
    const rtl: RtlTcp.RtlTcpClient
    const audio: Playback.AudioPlayer
    var running: bool
    var config: Config
    /** The gain last set through `SetGain`; the source has no such attribute until then. */
    var currentGain: Option<real>
    var rmsLevel: real

    ghost predicate Valid()
      reads this, rtl
    {
      rtl.Valid()
    }

    constructor ()
      ensures Valid() && fresh(rtl) && fresh(audio)
      ensures !running && config == DEFAULT_CONFIG && currentGain == None && rmsLevel == 0.0
      ensures rtl.Model() == Spec.INITIAL && !audio.running && audio.buffer == []
    {
      rtl := new RtlTcp.RtlTcpClient();
      audio := new Playback.AudioPlayer();
      running := false;
      config := DEFAULT_CONFIG;
      currentGain := None;
      rmsLevel := 0.0;
    }

    method Connect(reachable: bool, results: seq<bool>, stream: seq<seq<byte>>) returns (ok: bool)
      requires Valid()
      modifies rtl
      ensures Valid()
      ensures (ok, rtl.Model()) == Spec.Connect(old(rtl.Model()), reachable, results, stream)
    {
      ok := rtl.Connect(reachable, results, stream);
    }

    method SetFrequency(freqMhz: real) returns (ok: bool)
      requires Valid()
      modifies this, rtl
      ensures Valid()
      ensures config == old(config).(frequency := FrequencyHz(freqMhz))
      ensures running == old(running) && currentGain == old(currentGain) && rmsLevel == old(rmsLevel)
      ensures old(running) ==> (ok, rtl.Model()) == Spec.SendCommand(old(rtl.Model()), SET_FREQ, FrequencyHz(freqMhz))
      ensures !old(running) ==> ok && rtl.Model() == old(rtl.Model())
    {
      var freqHz := FrequencyHz(freqMhz);
      config := config.(frequency := freqHz);
      if running {
        ok := rtl.SetFrequency(freqHz);
        return;
      }
      ok := true;
    }

    /** Sends the clamped gain whenever AGC is off in the configuration, streaming or not. */
    method SetGain(gainDb: real) returns (ok: bool)
      requires Valid()
      modifies this, rtl
      ensures Valid()
      ensures config == old(config) && running == old(running) && rmsLevel == old(rmsLevel)
      ensures old(config).useHardwareAgc ==> !ok && rtl.Model() == old(rtl.Model()) && currentGain == old(currentGain)
      ensures !old(config).useHardwareAgc ==>
        (ok, rtl.Model()) == Spec.SendCommand(old(rtl.Model()), SET_GAIN, ClampedGain(gainDb))
      ensures currentGain == if ok then Some(gainDb) else old(currentGain)
    {
      if config.useHardwareAgc {
        return false;
      }
      var gainValue := ClampedGain(gainDb);
      ok := rtl.SendCommand(SET_GAIN, gainValue);
      if ok {
        currentGain := Some(gainDb);
      }
    }

    method SetHardwareAgc(enabled: bool) returns (ok: bool)
      requires Valid()
      modifies this, rtl
      ensures Valid()
      ensures config == old(config).(useHardwareAgc := enabled)
      ensures running == old(running) && currentGain == old(currentGain) && rmsLevel == old(rmsLevel)
      ensures old(running) ==> (ok, rtl.Model()) == SwitchAgc(old(rtl.Model()), enabled, old(config).gain)
      ensures !old(running) ==> ok && rtl.Model() == old(rtl.Model())
    {
      config := config.(useHardwareAgc := enabled);
      if running {
        if enabled {
          ok := rtl.EnableHardwareAgc();
          return;
        }
        ok := rtl.DisableHardwareAgc();
        if ok {
          ok := rtl.SetGain(config.gain);
        }
        return;
      }
      ok := true;
    }

    method SetFreqCorrection(ppm: int) returns (ok: bool)
      requires Valid()
      modifies this, rtl
      ensures Valid()
      ensures config == old(config).(freqCorrection := ppm)
      ensures running == old(running) && currentGain == old(currentGain) && rmsLevel == old(rmsLevel)
      ensures old(running) ==> (ok, rtl.Model()) == Spec.SendCommand(old(rtl.Model()), SET_FREQ_CORRECTION, ppm)
      ensures !old(running) ==> ok && rtl.Model() == old(rtl.Model())
    {
      config := config.(freqCorrection := ppm);
      if running {
        ok := rtl.SetFreqCorrection(ppm);
        return;
      }
      ok := true;
    }

    method InitializeSdr() returns (ok: bool)
      requires Valid()
      modifies rtl
      ensures Valid()
      ensures (ok, rtl.Model()) == LiveSpec.InitializeSdr(old(rtl.Model()), config)
    {
      var success := true;
      var rateOk := rtl.SetSampleRate(config.sdrSampleRate);
      success := success && rateOk;
      if config.useHardwareAgc {
        var agcOk := rtl.EnableHardwareAgc();
        success := success && agcOk;
      } else {
        var manualOk := rtl.DisableHardwareAgc();
        success := success && manualOk;
        var gainOk := rtl.SetGain(config.gain);
        success := success && gainOk;
      }
      var ppmOk := rtl.SetFreqCorrection(config.freqCorrection);
      success := success && ppmOk;
      var freqOk := rtl.SetFrequency(config.frequency);
      success := success && freqOk;
      ok := success;
    }

    /**
     * Starts streaming: refused while already running; otherwise initializes
     * the radio, then the audio output (`streamOpened`, `streamStarted` say how
     * the audio device behaves), and raises `running` only if both succeed.
     */
    method Start(streamOpened: bool, streamStarted: bool) returns (ok: bool)
      requires Valid()
      modifies this, rtl, audio
      ensures Valid()
      ensures config == old(config) && currentGain == old(currentGain) && rmsLevel == old(rmsLevel)
      ensures audio.buffer == old(audio.buffer)
      ensures old(running) ==> !ok && running && rtl.Model() == old(rtl.Model()) && audio.running == old(audio.running)
      ensures !old(running) ==> rtl.Model() == LiveSpec.InitializeSdr(old(rtl.Model()), config).1
      ensures !old(running) && !LiveSpec.InitializeSdr(old(rtl.Model()), config).0 ==>
        !ok && !running && audio.running == old(audio.running)
      ensures !old(running) && LiveSpec.InitializeSdr(old(rtl.Model()), config).0 ==>
        && ok == (!old(audio.running) && streamOpened && streamStarted)
        && running == ok
        && audio.running == (old(audio.running) || ok)
    {
      if running {
        return false;
      }
      var initOk := InitializeSdr();
      if !initOk {
        return false;
      }
      var audioOk := audio.Start(streamOpened, streamStarted);
      if !audioOk {
        return false;
      }
      running := true;
      ok := true;
    }

    /** Stops streaming; the pipeline thread is not part of this model. */
    method Stop()
      requires Valid()
      modifies this, audio
      ensures Valid()
      ensures !running
      ensures config == old(config) && currentGain == old(currentGain) && rmsLevel == old(rmsLevel)
      ensures audio.buffer == old(audio.buffer)
      ensures audio.running == (old(audio.running) && !old(running))
    {
      if !running {
        return;
      }
      running := false;
      audio.Stop();
    }

    method Disconnect()
      requires Valid()
      modifies this, rtl
      ensures Valid()
      ensures rtl.Model() == Spec.Disconnect(old(rtl.Model())) && !rtl.connected
      ensures rmsLevel == 0.0
      ensures running == old(running) && config == old(config) && currentGain == old(currentGain)
    {
      rtl.Disconnect();
      rmsLevel := 0.0;
    }

    /**
     * Hands a processed audio block to the player in CHUNK_SIZE pieces; the
     * queue ends up holding the newest MAX_CHUNKS of its old chunks followed by
     * the new ones.
     */
    method EnqueueAudio(processed: seq<real>)
      modifies audio
      ensures audio.running == old(audio.running)
      ensures audio.buffer == if audio.running then Playback.Latest(old(audio.buffer) + ChunksFrom(processed, 0))
        else old(audio.buffer)
    {
      var i: nat := 0;
      while i < |processed|
        invariant audio.running == old(audio.running)
        invariant audio.running ==>
          Playback.AppendAll(audio.buffer, ChunksFrom(processed, i)) == Playback.AppendAll(old(audio.buffer), ChunksFrom(processed, 0))
        invariant !audio.running ==> audio.buffer == old(audio.buffer)
        decreases |processed| - i
      {
        audio.Play(processed[i..Min(i + CHUNK_SIZE, |processed|)]);
        i := i + CHUNK_SIZE;
      }
      Playback.AppendAllKeepsLatest(old(audio.buffer), ChunksFrom(processed, 0));
    }
  }

  /**
   * The audio player's start as written: once a stream opens but fails to
   * start, the audio player stays marked running, the live player's stop
   * skips it because streaming never began, and every later start fails.
   */
  method FailedAudioStartWedgesPlayer() returns (first: bool, second: bool)
    ensures !first && !second
  {
    var p := new LiveFmPlayer();
    first := p.audio.StartAsWritten(true, false);
    p.Stop();
    second := p.audio.StartAsWritten(true, true);
  }

  /**
   * With the corrected audio start, a start that fails because the audio
   * stream did not start can be retried, and the retry streams.
   */
  method RetryAfterFailedAudioStart() returns (first: bool, second: bool)
    ensures !first && second
  {
    var p := new LiveFmPlayer();
    var results := seq(8, _ => true);
    var connected := p.Connect(true, results, []);
    DefaultConfigInitializes(p.rtl.Model());
    first := p.Start(true, false);
    p.Stop();
    assert p.rtl.Model().sendResults == results[4..];
    DefaultConfigInitializes(p.rtl.Model());
    second := p.Start(true, true);
  }
}
