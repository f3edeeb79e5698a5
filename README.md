# tinysdr receiver control and buffering, modelled in Dafny

This project models the receiver side of tinysdr's live FM player (`radlive.py`)
and the editing logic of its text field widget (`components/input_box.py`).

The radio side has four parts:

- **The RTL-TCP client.** Every command is a 5-byte frame: one opcode byte, then a
  32-bit big-endian parameter. The parameter is unsigned for every opcode except
  frequency correction (opcode 5), which is signed. A value that does not fit the
  field fails the command.
  - Nothing is sent unless the client is connected.
  - The AGC flag and the recorded gain change only when their send succeeds.
  - Manual gain is refused while AGC is on.
  - `read_samples(n)` waits for `2n` bytes. Even positions become I and odd positions
    become Q, each mapped by `(b - 127.5) / 127.5`. It returns nothing on a short read,
    and the bytes of a short read are dropped.
- **The bounded playback queue.** It holds at most 20 chunks. `play` appends at the
  tail, evicts the oldest chunk when the queue is full, and does nothing while the
  player is stopped.
- **The output callback's pull rule.** An empty queue gives `frame_count` zeros.
  Otherwise the head chunk is removed and returned, zero-padded or cut to
  `frame_count` samples.
- **The player's control surface.** A `running` flag and a configuration record sit
  in front of the client and the audio player.
  - `initialize_sdr` attempts sample rate, gain mode (and gain when manual),
    frequency correction and frequency, in that order, and ANDs the results.
  - `start` and `stop` guard on `running`.
  - `set_frequency`, `set_hardware_agc` and `set_freq_correction` always record the
    new value. They talk to the radio only while streaming.
  - The player's `set_gain` sends the gain clamped to 0..500 tenths of a dB.

The text field holds a string and a cursor, and the cursor stays within
`0..|value|`.
- Printable key codes (32..126) are inserted at the cursor.
- Backspace erases the character before the cursor.
- The left and right arrows move the cursor within bounds.
- A mouse press activates the field exactly when it lands in the field's closed
  rectangle.
- The callback runs in realtime mode when the frame typed or erased something. In
  the other mode it runs on Enter.

Layout: `wire.dfy` has frame encoding and decoding. `rtl_tcp_spec.dfy` holds the
client as a value, with one pure transition per operation. `rtl_tcp.dfy` has the
client class, whose methods are proved to follow those transitions. `playback.dfy`
has the queue, the pull rule and the audio player class. `live_spec.dfy` has the
configuration and the hardware conversations of the player. `live_player.dfy` has
the player class. `input_box.dfy` has the text field. `wrappers.dfy` has the
`Option` type.

The socket is a byte sink and a byte source, and what the network does is decided
per call:
- `sent` holds every byte written on the current socket.
- `sendResults` lists the outcome of each coming `socket.send`, in order. `true`
  writes the frame and `false` raises. A failed send leaves the connection up, so
  the next command can go through (`RtlTcpSpec.SendRecoversAfterFailure`). Once
  the list is used up, every send raises.
- `bursts` holds the bytes the server will deliver, split where a recv times out
  (5 s, radlive.py:115). A read that hits a timeout returns nothing and drops its
  bytes. The connection stays up, and the next read continues with the following
  burst (`RtlTcpSpec.ReadResumesAfterTimeout`). After the last burst the server has
  closed the stream.

Other choices the environment makes are parameters too:
- whether the server accepts the connection;
- whether the audio stream opens and then starts;
- the mouse position and the keys of each frame of the text field.

Four behaviours of the source are worth stating outright:
- The pull rule cuts a long head chunk to `frame_count` samples (radlive.py:243).
- The player's `set_gain` records nothing in the configuration and does not check
  `running` (radlive.py:328-337). It sends whenever AGC is off in the
  configuration and the client is connected. On success it sets an attribute
  `current_gain` on the player that does not exist before; the model keeps this
  attribute as an `Option`.
- The audio player raises its `running` flag after opening the stream and before
  `start_stream` (radlive.py:253-254). The consequence is under "## Findings".
- The realtime callback runs on a flag raised by typing or erasing
  (components/input_box.py:39, 45, 53), not on a comparison of values. Typing a
  character and erasing it in one frame therefore still runs the callback
  (`InputBox.TypeThenEraseRaisesFlag`).

## Model

| member | source | states |
|---|---|---|
| Wire.EncodeCommand | radlive.py:129-132 | the frame exists exactly when the value fits its field (signed 32-bit for opcode 5, unsigned 32-bit otherwise); it is 5 bytes starting with the opcode |
| Wire.BigEndian32 | radlive.py:130-132 | four bytes whose big-endian value is the parameter |
| Wire.TwosComplement | radlive.py:130 | the signed parameter's bit pattern: congruent to it modulo 2^32, top bit set exactly for negatives |
| Wire.DecodeEncode | radlive.py:129-133 | a server reading the frame recovers exactly the opcode and value that were sent |
| Wire.EncodeDecode | radlive.py:129-133 | every 5-byte frame is the encoding of what it decodes to (the encoding is a bijection) |
| Wire.NegativeCorrectionLayout | radlive.py:129-130 | a negative frequency correction goes on the wire as its 32-bit two's complement |
| RtlTcpSpec.Truncate | radlive.py:157 | Python's int() of a float truncates toward zero |
| RtlTcpSpec.TenthsOfDb | radlive.py:157 | the gain parameter is the gain in dB times ten, truncated toward zero |
| RtlTcpSpec.BytesNeeded | radlive.py:176 | two bytes per requested sample, and none for a count that is not positive |
| RtlTcpSpec.Connect | radlive.py:112-122 | the result is whether the server was reachable; a new socket replaces the old; a failed attempt leaves `connected` as it was and the new socket with nothing to write or read |
| RtlTcpSpec.SendCommand | radlive.py:124-137 | succeeds exactly when connected, the value packs and this send call goes through; a packing value always uses one send call; otherwise nothing changes; only the sent bytes and the send outcomes ever change |
| RtlTcpSpec.SendCommandWritesFrame | radlive.py:128-134 | a successful send appends exactly 5 bytes after what was sent before, and they decode to the command and its value |
| RtlTcpSpec.SendRecoversAfterFailure | radlive.py:133-137 | a failed send writes nothing and keeps the connection, and the next send that goes through writes its frame |
| RtlTcpSpec.SetGainMode | radlive.py:145-151 | sends 1 for manual and 0 for AGC; the AGC flag becomes `!manual` only when the send succeeds |
| RtlTcpSpec.SetGain | radlive.py:153-161 | refused without sending while AGC is on; otherwise sends the gain in tenths of a dB; the recorded gain changes only on success |
| RtlTcpSpec.Component | radlive.py:186-187 | `(b - 127.5)/127.5` equals `(2b - 255)/255` and lies in [-1, 1] |
| RtlTcpSpec.RequantizeComponent | radlive.py:186-187 | the byte is recoverable from its component |
| RtlTcpSpec.Deinterleave | radlive.py:185-188 | n samples from 2n bytes; sample k takes I from byte 2k and Q from byte 2k+1 |
| RtlTcpSpec.InterleaveDeinterleave | radlive.py:185-188 | converting bytes to samples loses nothing: the samples give the bytes back |
| RtlTcpSpec.ReadSamples | radlive.py:172-191 | samples exactly when connected and 2n bytes arrive before the next timeout or close, each mapped as above; a short read drops what it read and moves past the timeout; disconnected, nothing changes |
| RtlTcpSpec.ReadSamplesLossless | radlive.py:176-188 | a successful read consumes exactly 2n bytes, and its samples give exactly those bytes back |
| RtlTcpSpec.ReadResumesAfterTimeout | radlive.py:178-191 | a read that times out returns nothing but keeps the connection, and the next read gets the bytes that arrive after the timeout |
| RtlTcpSpec.Disconnect | radlive.py:193-197 | afterwards the client is not connected; the AGC flag, gain and sent bytes are kept |
| RtlTcpSpec.DisconnectIdempotent | radlive.py:193-197 | disconnecting twice is the same as disconnecting once |
| RtlTcpSpec.DisconnectSilences | radlive.py:125-127 | after a disconnect every command fails without sending and every read gives nothing |
| RtlTcpSpec.ComponentValues | radlive.py:186-187 | byte 0 maps to -1, byte 255 to +1, byte 128 to 1/255 |
| RtlTcpSpec.ComponentMonotonic | radlive.py:186-187 | larger bytes give larger components |
| RtlTcp.RtlTcpClient.constructor | radlive.py:104-110 | a new client has no socket, is not connected, has AGC off and gain 0 |
| RtlTcp.RtlTcpClient.Connect | radlive.py:112-122 | moves the object as RtlTcpSpec.Connect |
| RtlTcp.RtlTcpClient.SendCommand | radlive.py:124-137 | moves the object as RtlTcpSpec.SendCommand |
| RtlTcp.RtlTcpClient.SetFrequency | radlive.py:139-140 | sends opcode 1 with the frequency |
| RtlTcp.RtlTcpClient.SetSampleRate | radlive.py:142-143 | sends opcode 2 with the rate |
| RtlTcp.RtlTcpClient.SetGainMode | radlive.py:145-151 | moves the object as RtlTcpSpec.SetGainMode |
| RtlTcp.RtlTcpClient.SetGain | radlive.py:153-161 | moves the object as RtlTcpSpec.SetGain |
| RtlTcp.RtlTcpClient.SetFreqCorrection | radlive.py:163-164 | sends opcode 5 with the signed correction |
| RtlTcp.RtlTcpClient.EnableHardwareAgc | radlive.py:166-167 | selects AGC through SetGainMode |
| RtlTcp.RtlTcpClient.DisableHardwareAgc | radlive.py:169-170 | selects manual gain through SetGainMode |
| RtlTcp.RtlTcpClient.ReadSamples | radlive.py:172-191 | its receive loop, with recv capped at 65536 bytes, returns and consumes exactly what RtlTcpSpec.ReadSamples says |
| RtlTcp.RtlTcpClient.Disconnect | radlive.py:193-197 | moves the object as RtlTcpSpec.Disconnect |
| Playback.Latest | radlive.py:223 | the newest (at most 20) chunks of a sequence, as a suffix of it |
| Playback.Append | radlive.py:288 | appending keeps the newest 20 of the old chunks plus the new one at the tail; below capacity it grows by one |
| Playback.AppendAllKeepsLatest | radlive.py:284-288 | appending chunks one by one leaves exactly the newest 20 of old and new together |
| Playback.TwentyFiveKeepTwenty | radlive.py:223 | 25 chunks appended to an empty queue leave the last 20 |
| Playback.Pull | radlive.py:233-243 | always `frame_count` samples: the head chunk's samples where it has them and zeros elsewhere; the head is removed; an empty queue gives silence and stays empty |
| Playback.PullAfterAppend | radlive.py:235-243 | below capacity, pulling after an append is appending after a pull (first in, first out) |
| Playback.AudioPlayer.constructor | radlive.py:218-224 | a new player is stopped with an empty queue |
| Playback.AudioPlayer.StartAsWritten | radlive.py:226-263 | the code as written: refused while running; `running` is raised once the stream opens, before it starts; success also needs the stream to start |
| Playback.AudioPlayer.Start | radlive.py:226-263 | corrected: refused while running; otherwise the player is marked running exactly when the stream opened and started, which is exactly when it reports success |
| Playback.AudioPlayer.Stop | radlive.py:265-282 | afterwards the player is stopped; the queue is kept |
| Playback.AudioPlayer.Play | radlive.py:284-288 | while running the queue becomes Append(queue, chunk), otherwise it is unchanged |
| Playback.AudioPlayer.Callback | radlive.py:233-243 | returns and leaves what Pull says |
| LiveSpec.FrequencyHz | radlive.py:322 | the frequency in MHz becomes whole Hz, truncated toward zero |
| LiveSpec.ClampedGain | radlive.py:332 | the gain in tenths of a dB clamped to 0..500, so it always packs |
| LiveSpec.ManualGain | radlive.py:364-365 | manual mode then the gain: success leaves AGC off with the gain recorded; disconnected, nothing changes; only the sent bytes, send outcomes, AGC flag and gain change |
| LiveSpec.GainSetup | radlive.py:361-365 | success leaves the AGC flag as configured (and the configured gain recorded when manual); disconnected, nothing changes |
| LiveSpec.InitializeSdr | radlive.py:358-368 | initialization changes only the sent bytes, the send outcomes, the AGC flag and the recorded gain |
| LiveSpec.SendStep | radlive.py:124-137 | while sends go through, a command succeeds exactly when its value packs, writes its frame, and uses one send call only if it packs |
| LiveSpec.GainSetupWrites | radlive.py:361-365 | while the sends go through, the gain step writes the mode (and the gain when manual) and leaves the configured mode |
| LiveSpec.GainSetupSucceeded | radlive.py:361-365 | a gain step that succeeded had every one of its sends go through, and its gain packs |
| LiveSpec.InitializeSdrWritesInOrder | radlive.py:358-368 | while the sends go through, every command is attempted and the frames follow in order (rate, gain mode and gain, correction, frequency); a value that does not pack writes nothing; the result is whether every value packs |
| LiveSpec.InitializeSdrSucceeds | radlive.py:358-368 | the ANDed result is true exactly when the link is live, every value packs and all four or five sends go through |
| LiveSpec.DefaultConfigInitializes | radlive.py:299-306 | the default configuration packs, so on a live link whose next four sends go through initialization succeeds and uses exactly those four sends |
| LiveSpec.InitializeSdrDisconnected | radlive.py:358-368 | without a connection initialization fails and changes nothing |
| LiveSpec.InitializeSdrAfterRateFailure | radlive.py:358-368 | a failed sample-rate send fails initialization, but the gain, correction and frequency frames are still written |
| LiveSpec.SwitchAgc | radlive.py:340-350 | success leaves the AGC flag as requested; turning AGC off also records the configured gain; disconnected, nothing changes |
| LiveSpec.SwitchAgcOffWrites | radlive.py:345-349 | while both sends go through, turning AGC off writes manual mode, then the configured gain, and succeeds exactly when the gain packs |
| LiveSpec.SwitchAgcOnWrites | radlive.py:343-344 | when the send goes through, turning AGC on writes mode 0 and succeeds |
| LiveSpec.ChunksFrom | radlive.py:391-392 | chunks of 1 to 1024 samples, every one but the last exactly 1024 |
| LiveSpec.ChunksCoverBlock | radlive.py:391-392 | the chunks put back together are the block |
| Live.LiveFmPlayer.constructor | radlive.py:291-306 | a new player is stopped, with the default configuration (100 MHz, 1.024 MHz sample rate, 48 kHz audio, 30 dB, AGC on, no correction) |
| Live.LiveFmPlayer.Connect | radlive.py:308-309 | connects the client |
| Live.LiveFmPlayer.SetFrequency | radlive.py:321-326 | records the frequency in whole Hz; sends it only while running; succeeds unconditionally when stopped |
| Live.LiveFmPlayer.SetGain | radlive.py:328-337 | refused while AGC is configured; otherwise sends the clamped gain whether or not streaming; records it on the player only on success |
| Live.LiveFmPlayer.SetHardwareAgc | radlive.py:340-350 | records the mode; while running, switches the radio as SwitchAgc; succeeds unconditionally when stopped |
| Live.LiveFmPlayer.SetFreqCorrection | radlive.py:352-356 | records the correction; sends it only while running; succeeds unconditionally when stopped |
| Live.LiveFmPlayer.InitializeSdr | radlive.py:358-368 | its command sequence, folded with AND, moves the client as LiveSpec.InitializeSdr |
| Live.LiveFmPlayer.Start | radlive.py:394-407 | refused with nothing changed while running; otherwise initializes the radio; `running` is raised exactly when initialization and the audio start both succeed |
| Live.LiveFmPlayer.Stop | radlive.py:409-416 | afterwards not running; the audio player is stopped only if the player was running |
| Live.LiveFmPlayer.Disconnect | radlive.py:418-420 | disconnects the client and resets the level to 0 |
| Live.LiveFmPlayer.EnqueueAudio | radlive.py:391-392 | feeding a block in 1024-sample chunks leaves the newest 20 of the old and new chunks, or nothing changes when the audio player is stopped |
| Live.FailedAudioStartWedgesPlayer | radlive.py:253-256 | with the audio start as written, a stream that opens but does not start makes the next start fail too, even after the player's stop |
| Live.RetryAfterFailedAudioStart | radlive.py:394-416 | with the corrected audio start, a start whose audio stream fails can be retried after stop, and the retry succeeds |
| InputBox.InsertKey | components/input_box.py:36-39 | a printable code is inserted at the cursor and the cursor moves past it; any other code changes nothing |
| InputBox.Printable | components/input_box.py:36 | the printable characters of the key queue: no more of them than keys, each in 32..126 |
| InputBox.InsertKeys | components/input_box.py:34-40 | typing keeps the cursor within the value |
| InputBox.InsertKeysInsertsPrintable | components/input_box.py:34-40 | typing a run of keys inserts exactly its printable characters, in order, at the cursor and moves the cursor past them |
| InputBox.TypeChars | components/input_box.py:34-40 | its loop over the queue of typed characters ends in InsertKeys' result, and reports exactly whether a printable character arrived |
| InputBox.Backspace | components/input_box.py:42-45 | with the cursor past 0, it erases exactly the character before the cursor and moves back one; at 0 it does nothing |
| InputBox.MoveLeft | components/input_box.py:47-48 | moves left only when the cursor is past 0 |
| InputBox.MoveRight | components/input_box.py:49-50 | moves right only when the cursor is before the end |
| InputBox.Edit | components/input_box.py:31-50 | every edit keeps `0 <= cursor <= |value|` |
| InputBox.EditField | components/input_box.py:31-50 | the step-by-step edits (typing, backspace, left, right) give exactly Edit's field and flag |
| InputBox.EditChangedFlag | components/input_box.py:32-45 | the edit flag is raised exactly when a printable key arrived or backspace erased a character |
| InputBox.ValueChangeRaisesFlag | components/input_box.py:52-54 | a frame that changes the value always raises the flag, so a realtime callback runs |
| InputBox.TypeThenEraseRaisesFlag | components/input_box.py:52-54 | typing a character and erasing it raises the flag although the value is unchanged |
| InputBox.Inside | components/input_box.py:28-29 | the hit test of the field's rectangle; a press can only hit a box of non-negative width |
| InputBox.InsideIsClosedRectangle | components/input_box.py:28-29 | the rectangle is closed: its corners are hits, points just past the left or bottom edge are not |
| InputBox.Fires | components/input_box.py:52-56 | the callback rule: it runs only when one is installed, and only on an edit or on Enter |
| InputBox.Input.constructor | components/input_box.py:5-11 | the cursor starts at the end of the initial value; the field starts inactive |
| InputBox.Input.Update | components/input_box.py:25-56 | a press sets `active` exactly when inside the closed rectangle [x, x+w] x [y, y+20]; inactive, nothing is edited and no callback runs; active, the field becomes Edit's result and the callback gets the new value exactly when one is installed and it fires (realtime: on the edit flag; otherwise: on Enter) |

## Findings

| source | as written | input that shows it | evidently intended | confidence | as-written member | corrected member |
|---|---|---|---|---|---|---|
| radlive.py:253-254, 400-402, 409-411 | `AudioPlayer.start` sets `running = True` before `start_stream()`; when `start_stream` raises, `start` returns False with `running` still True | the audio stream opens but `start_stream` raises: the live player's `start` fails, its `stop` returns early because it never started streaming, and every later `start` fails at the audio player | a failed start leaves the audio player stopped, as the `except` branch's teardown of PyAudio suggests, so streaming can be retried | medium; not executed | Live.FailedAudioStartWedgesPlayer (over Playback.AudioPlayer.StartAsWritten) | Playback.AudioPlayer.Start, used by Live.LiveFmPlayer.Start; Live.RetryAfterFailedAudioStart |

## Left out

- Sockets: creating them, timeouts and the `recv`/`send` system calls (radlive.py:112-122, 178-182) are abstracted as described above. Each recv returns as many of the available bytes as it asked for. A partial `send` is not modelled; the source ignores the count `send` returns.
- RtlTcpSpec.Truncate, RtlTcpSpec.TenthsOfDb, LiveSpec.FrequencyHz, RtlTcpSpec.Component: the arithmetic is exact on `real`. The model does not capture IEEE rounding: of `gain_db * 10` or `freq_mhz * 1e6` before truncation, or of numpy's float64 division `(b - 127.5) / 127.5`.
- The `Log` class (console output) and every log call.
- PyAudio stream setup, device callbacks and teardown (radlive.py:226-282) are foreign library calls. Whether the stream opens and starts is a parameter of `Start`.
- Threading: `stream_loop`, the pipeline thread, `thread.join(timeout=2)` and the buffer lock (radlive.py:381-416). Queue operations are modelled as atomic. Only the chunking step of the loop (`EnqueueAudio`) is modelled.
- Floating-point DSP: `FMDemodulator.demodulate`, `process_audio` (RMS, level, Butterworth filter, clipping) and `resample_poly`. `rms_level` is modelled only as the field that `disconnect` resets.
- `set_host` and `set_port` are left out, with the host and port themselves, because the connection endpoint is a parameter of `Connect`.
- The frequency correction is modelled as an integer number of ppm. The source passes it through `int()`, and its callers pass whole numbers.
- The text field's drawing, cursor blink, colour scheme and `mode` argument, which are presentation only. The callback is a foreign function, so `Update` returns the value it would be given.
- components/app.py (configuration file I/O, render loop, file dialog, transmit path) and the other widgets (knob, panel, VU meter, button, colours) and main.py are not part of this model.
