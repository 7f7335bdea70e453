# LED Remixer BLE control protocol, in Dafny

This project models the control plane of the LED Remixer firmware's BLE handler
(`LEDRemixerBLE` in `Firmware/led_remixer_firmware/led_remixer_ble.cpp`). A
phone writes raw byte buffers to the receive characteristic. `onWrite` sorts
each buffer into one of three kinds:

- the legacy magic `61 73 64 66` ("asdf"), which installs a built-in 20 x 10 "Z"
  demo pattern and sends nothing back;
- a standard frame `D0 <command> ... D1`, which sets the brightness (command 2),
  the animation speed (3) or the pattern (4), or is answered with Error;
- anything else, which is answered with the 5-byte diagnostic frame `01 02 00 05 01`.

Acknowledgements are the 7-byte frames `45 46 00 07 <code> 46 45`, with code 0
for Success and 1 for Error. `loop()`, `onConnect` and `onDisconnect` maintain
two flags and restart advertising after a client leaves that `loop()` has seen
connected.

Modules:

- `Protocol` (`protocol.dfy`) holds the command codes, the classification of
  buffers, the frame encoder and the response frames. It is pure.
- `Dispatch` (`dispatch.dfy`) is the specification of one write on a
  configuration value: `Process` gives the new configuration, the response and
  whether the pattern is saved. Lemmas state what each command does and that
  no sequence of writes breaks the buffer bounds.
- `Tracker` (`tracker.dfy`) is the connection-flag machine. It proves that
  advertising restarts at most once per connected-to-disconnected edge, and
  that a connection shorter than one tick gets no restart at all.
- `Remixer` (`remixer.dfy`) is the imperative model:
  - class `Config` holds `brightness`, `speed`, `frameHeight`, `frameCount`,
    `patternLength` and `pattern: array<bv8>`;
  - class `LedRemixerBle` holds the two connection flags. Its `OnWrite` updates
    the pattern array in place with loops and is proved to do exactly what
    `Dispatch.Process` says;
  - a ghost `outbox` records, in order, the values set on the read-only Tx
    characteristic at line 144, and only while a client is connected; each is
    followed by a notify on the separate notify characteristic, whose payload
    the model does not track;
  - restarts of advertising are counted in a ghost `advertiseRestarts`;
  - `savePattern` copies the current state into a ghost `persisted` snapshot.
- `Findings` (`findings.dfy`) models three out-of-bounds accesses of the source
  as written, each with an input that shows it.

`Remixer.ExampleSession` checks one client session against the handler's
contracts: a brightness write while connected is applied and acknowledged,
a speed write after the client left is applied without a reply, and the next two
ticks restart advertising once.

The pattern buffer's size is declared in `led_remixer_config.cpp`, which is not
part of this model. Here it is the constant `Dispatch.Capacity` (3072 bytes).

Where the code is looser than the protocol comments at lines 21-51 of
`led_remixer_ble.cpp`, the model follows the code:

- The magic test looks only at the first four bytes. A longer buffer that
  starts with `61 73 64 66` is also the magic.
- A standard frame needs only two bytes. For `D0 D1` the command byte read is
  the end marker `D1`, so the answer is Error.
- SetPattern reads the pattern from buffer offset 4. It needs `4 + n` bytes,
  where `n = frameHeight * frameCount * 3`, so the last pattern byte may be the
  `D1` marker itself.

Where the source reads outside memory, the model adds these length checks:

- the magic needs 4 bytes, so a short prefix such as `61 73` is chatter;
- SetPattern needs 4 bytes, `n <= Capacity` and `4 + n` bytes in all.

SetBrightness and SetSpeed never read outside memory: a frame with command 2 or
3 has at least three bytes (`Findings.SetByteFrameHoldsPayload`). The model still requires 4 bytes for them, the one
payload byte of the layout at lines 27 and 32 plus the end marker; "## Left out"
says what this changes.

A buffer that fails its check gets the Error or the diagnostic frame, and the
configuration is left as it was.

## Model

| member | source | states |
|---|---|---|
| `Protocol.Code` | Firmware/led_remixer_firmware/led_remixer_ble.cpp:53-59 | each CommCode is its position in the enumeration, 0 to 4 |
| `Protocol.FromByte` | Firmware/led_remixer_firmware/led_remixer_ble.cpp:223 | a command byte is a known CommCode exactly when it is at most 4, and then it is that code's value |
| `Protocol.CodeRoundTrip` | Firmware/led_remixer_firmware/led_remixer_ble.cpp:53-59 | reading a code's value back gives the code |
| `Protocol.Classify` | Firmware/led_remixer_firmware/led_remixer_ble.cpp:205-250 | magic happens exactly when the first four bytes are `61 73 64 66`; a frame happens exactly when the buffer is not magic, starts with D0 and ends with D1, and then its command is byte 1; chatter is everything else, the empty buffer included |
| `Protocol.EncodeFrame` | Firmware/led_remixer_firmware/led_remixer_ble.cpp:21-28 | a frame built from the documented layout is classified as a frame with that command, and its payload sits between the command and D1 |
| `Protocol.FramedIsEncoded` | Firmware/led_remixer_firmware/led_remixer_ble.cpp:222-223 | every frame of three bytes or more is the encoding of its command and payload |
| `Protocol.DeclaredLength` | Firmware/led_remixer_firmware/led_remixer_ble.cpp:144 | the 16-bit value of data[2] shifted left by 8 and or-ed with data[3] equals 256 * data[2] + data[3] |
| `Protocol.ResponseFrame` | Firmware/led_remixer_firmware/led_remixer_ble.cpp:81-89 | an acknowledgement is 7 bytes, its declared length is 7, and its code can be read back from it |
| `Protocol.ResponseCode` | Firmware/led_remixer_firmware/led_remixer_ble.cpp:81-89 | the code read from a 7-byte acknowledgement is the one at index 4 |
| `Protocol.SuccessFrame` | Firmware/led_remixer_firmware/led_remixer_ble.cpp:86-89 | the Success frame's declared length is its length, 7, and its code reads back as Success |
| `Protocol.ErrorFrame` | Firmware/led_remixer_firmware/led_remixer_ble.cpp:81-84 | the Error frame's declared length is its length, 7, and its code reads back as Error |
| `Protocol.LolcatFrame` | Firmware/led_remixer_firmware/led_remixer_ble.cpp:91-95 | the diagnostic frame's declared length is its length, 5, and it does not read as an acknowledgement |
| `Protocol.ResponsesDistinct` | Firmware/led_remixer_firmware/led_remixer_ble.cpp:81-95 | Success, Error and the diagnostic frame are pairwise different |
| `Dispatch.PatternSize` | Firmware/led_remixer_firmware/led_remixer_ble.cpp:237 | the pattern length is a multiple of 3, at most 255 * 255 * 3, and zero exactly when the height or the frame count is zero |
| `Dispatch.DemoPattern` | Firmware/led_remixer_firmware/led_remixer_ble.cpp:210-219 | the demo fill keeps the pattern buffer's size and every byte from 600 on; what it writes into the 200 cells is `DemoPatternCells` |
| `Dispatch.DemoPatternCells` | Firmware/led_remixer_firmware/led_remixer_ble.cpp:210-219 | in the demo fill, each of the 200 cells has red and green 0, and blue 0xFF exactly when its zonar entry is 1 |
| `Dispatch.DemoPatternFromCells` | Firmware/led_remixer_firmware/led_remixer_ble.cpp:210-219 | a buffer with the demo cells in its first 600 bytes and the old bytes after them is the demo fill |
| `Dispatch.Process` | Firmware/led_remixer_firmware/led_remixer_ble.cpp:205-250 | one write keeps the buffer bounds and the geometry/length agreement; it sends nothing exactly on the magic; it sends the diagnostic frame exactly on chatter; every Error or diagnostic leaves the state unchanged and unsaved; the pattern changes only when it is saved |
| `Dispatch.MagicInstallsDemo` | Firmware/led_remixer_firmware/led_remixer_ble.cpp:206-221 | the magic sets the height to 20, the count to 10 and the length to 600, writes the demo fill, saves, and sends no response |
| `Dispatch.SetByteExact` | Firmware/led_remixer_firmware/led_remixer_ble.cpp:224-229 | for every byte value, SetBrightness or SetSpeed sets that field to the byte after the command, changes nothing else, and answers Success |
| `Dispatch.LoadedPattern` | Firmware/led_remixer_firmware/led_remixer_ble.cpp:231-240 | after clear-then-copy, the first n pattern bytes are buffer bytes 4 to 4 + n and every byte from n to the capacity is 0 |
| `Dispatch.PatternFits` | Firmware/led_remixer_firmware/led_remixer_ble.cpp:234-240 | a SetPattern is applied exactly when the buffer has both geometry bytes, height * count is at most 1024 pixels (the capacity over 3), and the buffer holds 4 + 3 * height * count bytes |
| `Dispatch.SetByteNeedsPayload` | Firmware/led_remixer_firmware/led_remixer_ble.cpp:224-229 | SetBrightness or SetSpeed with no payload byte answers Error and changes nothing |
| `Dispatch.SetPatternAccepted` | Firmware/led_remixer_firmware/led_remixer_ble.cpp:230-243 | a SetPattern that fits sets the height and count from bytes 2 and 3 and the length to their product times 3; pattern byte i is buffer byte i + 4 below the length and 0 above it; brightness and speed are kept, the store is saved and Success is sent |
| `Dispatch.SetPatternRejected` | Firmware/led_remixer_firmware/led_remixer_ble.cpp:234-240 | a SetPattern whose declared pattern exceeds the capacity or the buffer answers Error and leaves the store and the saved copy unchanged |
| `Dispatch.SetPatternSuccessIff` | Firmware/led_remixer_firmware/led_remixer_ble.cpp:230-246 | SetPattern answers Success if and only if it passes the bound check |
| `Dispatch.UnknownCommandRejected` | Firmware/led_remixer_firmware/led_remixer_ble.cpp:245-247 | a frame whose command is not 2, 3 or 4 (0 and 1 included) answers Error and changes nothing |
| `Dispatch.RejectionIdempotent` | Firmware/led_remixer_firmware/led_remixer_ble.cpp:245-247 | sending a rejected write again has the same outcome and still changes nothing |
| `Dispatch.Session` | Firmware/led_remixer_firmware/led_remixer_ble.cpp:149-252 | any sequence of writes keeps the pattern within the buffer |
| `Dispatch.SessionConsistent` | Firmware/led_remixer_firmware/led_remixer_ble.cpp:237 | after any sequence of writes, however malformed, the pattern length still equals height * count * 3 |
| `Dispatch.RejectedSessionUnchanged` | Firmware/led_remixer_firmware/led_remixer_ble.cpp:245-247 | a sequence of frames with unknown commands leaves the configuration as it was |
| `Dispatch.ExampleBrightness` | Firmware/led_remixer_firmware/led_remixer_ble.cpp:35 | `D0 02 80 D1` sets the brightness to 128 and answers Success |
| `Dispatch.ExampleBlinkingPixel` | Firmware/led_remixer_firmware/led_remixer_ble.cpp:50 | `D0 04 01 02 FF FF FF 00 00 00 D1` gives height 1, count 2, length 6 and exactly those six pattern bytes, and answers Success |
| `Dispatch.ExampleOversizedPattern` | Firmware/led_remixer_firmware/led_remixer_ble.cpp:234-240 | `D0 04 FF FF D1` answers Error and changes nothing |
| `Dispatch.ExampleUnknownCommand` | Firmware/led_remixer_firmware/led_remixer_ble.cpp:245-247 | `D0 05 D1` answers Error and changes nothing |
| `Dispatch.ExampleChatter` | Firmware/led_remixer_firmware/led_remixer_ble.cpp:248-250 | `FF FF FF` and the empty buffer get the diagnostic frame and change nothing |
| `Tracker.RestartsAdvertising` | Firmware/led_remixer_firmware/led_remixer_ble.cpp:128-132 | a tick restarts advertising exactly when a disconnect edge is pending, and afterwards both flags are false |
| `Tracker.Next` | Firmware/led_remixer_firmware/led_remixer_ble.cpp:126-140 | connect and disconnect set only deviceConnected; after a tick, oldDeviceConnected equals deviceConnected |
| `Tracker.NoRestartTwice` | Firmware/led_remixer_firmware/led_remixer_ble.cpp:128-133 | the tick after a tick never restarts advertising |
| `Tracker.RestartsBounded` | Firmware/led_remixer_firmware/led_remixer_ble.cpp:126-140 | from any state, restarts plus a pending edge never exceed the pending edge before plus the number of disconnect callbacks that find a client connected |
| `Tracker.AtMostOneRestartPerDisconnect` | Firmware/led_remixer_firmware/led_remixer_ble.cpp:126-140 | from boot, advertising restarts at most once per connected-to-disconnected edge; a repeated disconnect callback earns no second restart |
| `Tracker.ExampleDuplicateDisconnect` | Firmware/led_remixer_firmware/led_remixer_ble.cpp:126-140 | connect, tick, two disconnects and a tick make one edge and one restart, so the bound is reached |
| `Tracker.SeenDisconnectRestarts` | Firmware/led_remixer_firmware/led_remixer_ble.cpp:126-133 | when loop() has seen the client connected, a disconnect makes the next tick restart advertising, and the flags return to their boot values |
| `Tracker.ShortConnectionNoRestart` | Firmware/led_remixer_firmware/led_remixer_ble.cpp:126-140 | a connect and a disconnect between two ticks make one disconnect edge but no restart, and the flags end at their boot values |
| `Tracker.TickSettles` | Firmware/led_remixer_firmware/led_remixer_ble.cpp:132-138 | after any history followed by a tick, oldDeviceConnected equals deviceConnected, and the tick does not change deviceConnected |
| `Remixer.Config.SetLedBrightness` | Firmware/led_remixer_firmware/led_remixer_ble.cpp:225 | the brightness becomes the given byte |
| `Remixer.Config.SetAnimationSpeed` | Firmware/led_remixer_firmware/led_remixer_ble.cpp:228 | the speed becomes the given byte |
| `Remixer.Config.SetFrameHeight` | Firmware/led_remixer_firmware/led_remixer_ble.cpp:234 | the frame height becomes the given byte |
| `Remixer.Config.SetFrameCount` | Firmware/led_remixer_firmware/led_remixer_ble.cpp:235 | the frame count becomes the given byte |
| `Remixer.Config.SavePattern` | Firmware/led_remixer_firmware/led_remixer_ble.cpp:241 | the saved snapshot becomes the current configuration |
| `Remixer.LedRemixerBle.constructor` | Firmware/led_remixer_firmware/led_remixer_ble.cpp:73-74 | both connection flags start false; nothing has been sent or restarted |
| `Remixer.LedRemixerBle.Loop` | Firmware/led_remixer_firmware/led_remixer_ble.cpp:126-140 | the tick transition of the tracker; deviceConnected is kept and oldDeviceConnected becomes equal to it; the restart counter goes up by one exactly when the tick starts disconnected with oldDeviceConnected set |
| `Remixer.LedRemixerBle.OnConnect` | Firmware/led_remixer_firmware/led_remixer_ble.cpp:254-257 | the tracker's connect transition: only deviceConnected changes, to true |
| `Remixer.LedRemixerBle.OnDisconnect` | Firmware/led_remixer_firmware/led_remixer_ble.cpp:259-262 | the tracker's disconnect transition: only deviceConnected changes, to false |
| `Remixer.LedRemixerBle.WriteToRemixer` | Firmware/led_remixer_firmware/led_remixer_ble.cpp:142-147 | the first DeclaredLength bytes are sent when connected, and nothing is sent otherwise |
| `Remixer.LedRemixerBle.SendError` | Firmware/led_remixer_firmware/led_remixer_ble.cpp:81-84 | the whole Error frame is sent if a client is connected |
| `Remixer.LedRemixerBle.SendSuccess` | Firmware/led_remixer_firmware/led_remixer_ble.cpp:86-89 | the whole Success frame is sent if a client is connected |
| `Remixer.LedRemixerBle.SendLolcat` | Firmware/led_remixer_firmware/led_remixer_ble.cpp:91-95 | the whole diagnostic frame is sent if a client is connected |
| `Remixer.LedRemixerBle.FillDemoPattern` | Firmware/led_remixer_firmware/led_remixer_ble.cpp:210-219 | the pattern array becomes the demo fill of its old contents |
| `Remixer.LedRemixerBle.WritePixel` | Firmware/led_remixer_firmware/led_remixer_ble.cpp:212-218 | cell i gets red 0, green 0 and the given blue, and every other byte is kept |
| `Remixer.LedRemixerBle.ClearPattern` | Firmware/led_remixer_firmware/led_remixer_ble.cpp:231-233 | every byte of the pattern array becomes 0 |
| `Remixer.LedRemixerBle.CopyPattern` | Firmware/led_remixer_firmware/led_remixer_ble.cpp:238-240 | pattern byte i becomes buffer byte i + 4 for i below n, and the bytes above n are kept |
| `Remixer.LedRemixerBle.InstallDemo` | Firmware/led_remixer_firmware/led_remixer_ble.cpp:208-221 | the height becomes 20, the count 10 and the length 600, the pattern array becomes the demo fill of its old contents, and that state is saved |
| `Remixer.LedRemixerBle.ApplyPattern` | Firmware/led_remixer_firmware/led_remixer_ble.cpp:231-241 | clearing, the new geometry, the copy and the save together give the loaded pattern with length height * count * 3, and that state is saved |
| `Remixer.LedRemixerBle.OnWrite` | Firmware/led_remixer_firmware/led_remixer_ble.cpp:149-252 | on every input the new configuration is the one `Process` gives; the saved snapshot changes exactly when `Process` saves; the response is sent exactly when there is one and a client is connected; every array access is in bounds |
| `Findings.SourceDemoLoopBound` | Firmware/led_remixer_firmware/led_remixer_ble.cpp:210 | the demo loop as written runs to sizeof(zonar): 200 cells * 4 bytes |
| `Findings.SourceDemoLoopOverruns` | Firmware/led_remixer_firmware/led_remixer_ble.cpp:210-219 | the demo loop as written reads zonar past index 199 and writes pattern bytes up to 2399 |
| `Findings.SourceCopyAccesses` | Firmware/led_remixer_firmware/led_remixer_ble.cpp:238-240 | the copy loop as written makes one access per declared pattern byte |
| `Findings.SourceCopyOverruns` | Firmware/led_remixer_firmware/led_remixer_ble.cpp:236-240 | for `D0 04 FF FF D1`, the copy as written reads past the 5-byte buffer and writes past the capacity |
| `Findings.GuardedCopyInBounds` | Firmware/led_remixer_firmware/led_remixer_ble.cpp:238-240 | behind the bound check, every access of the copy loop is in bounds |
| `Findings.SourceMagicReads` | Firmware/led_remixer_firmware/led_remixer_ble.cpp:206 | the magic test as written reads index 0, then 1 after a `61`, then both 2 and 3 (the `&` does not short-circuit) after `61 73` |
| `Findings.SourceHeaderReads` | Firmware/led_remixer_firmware/led_remixer_ble.cpp:206-235 | the header tests as written read index 0 first, and the empty buffer gets no further than that read; the list keeps repeats, so line 222 reads index 0 a second time |
| `Findings.SourceHeaderReadsInBoundsIff` | Firmware/led_remixer_firmware/led_remixer_ble.cpp:206-235 | the header reads as written stay in the buffer exactly when it is not empty, not `61` alone, not a 2- or 3-byte `61 73 ..`, and a pattern frame holds both geometry bytes |
| `Findings.SetByteFrameHoldsPayload` | Firmware/led_remixer_firmware/led_remixer_ble.cpp:222-228 | a brightness or speed frame has at least three bytes, so the byte its branch reads at index 2 exists |
| `Findings.SourceShortMagicOverreads` | Firmware/led_remixer_firmware/led_remixer_ble.cpp:206 | for `61 73` the magic test as written reads indices 0 to 3 of a two-byte buffer |
| `Findings.SourceShortPatternOverreads` | Firmware/led_remixer_firmware/led_remixer_ble.cpp:222-235 | for `D0 04 D1` the header tests as written read indices 0, 0, 2, 1, 2 and 3 of a three-byte buffer |
| `Findings.SourceEmptyOverreads` | Firmware/led_remixer_firmware/led_remixer_ble.cpp:206 | for the empty buffer the magic test as written reads index 0, which does not exist |
| `Findings.GuardedHeaderTotal` | Firmware/led_remixer_firmware/led_remixer_ble.cpp:205-250 | the guarded handler classifies the empty buffer and `61 73` as chatter and answers them with the diagnostic frame, answers `D0 04 D1` with Error, and changes nothing in any of them |

## Left out

- BLE stack bring-up (lines 101-124) is left out because it is all foreign library calls: device init, server, service, characteristic and descriptor creation, the UUIDs and the initial advertising. A restart of advertising in `loop()` only adds one to the ghost counter `advertiseRestarts`.
- The characteristic UUID test at line 151 is left out because the callback is registered only on the receive characteristic (line 117). `OnWrite` takes that characteristic's data and length as one byte sequence.
- `delay(500)`, `millis()` and `bleLastReceived` (lines 100, 129, 152) are left out because they are timing, and nothing in the file reads `bleLastReceived`.
- The debug macros and the byte-dump loop (lines 12-19, 157-163) are left out because they only log.
- `led_remixer_config.cpp` is not part of this model:
  - its setters are modelled as plain field assignments;
  - `savePattern` is modelled as a ghost snapshot `persisted`, with no storage mechanics and no write failure;
  - whether the brightness and speed setters also persist is not known, so the model does not persist them;
  - loading at boot is not modelled, and `Config`'s constructor starts from all-zero defaults;
  - the pattern buffer's real size is declared there, so the model uses the constant `Capacity`;
  - clearing the whole buffer in `ClearPattern` assumes that `sizeof(config.pattern)` at line 231 is the buffer's size, which holds when `pattern` is an array member and not a pointer.
- The out-of-bounds behaviour of the source is left out, because it is undefined behaviour in C++. The model replaces it with the length checks listed above, and "## Findings" records each case.
- Dispatch.Process and Dispatch.SetByteNeedsPayload: the source also accepts `D0 02 D1` and `D0 03 D1`, reading the end marker `D1` as the brightness or speed value. The model needs a payload byte (4 bytes in all) and answers these with Error.
- Remixer.LedRemixerBle.FillDemoPattern: the source's loop writes far past the 600 demo bytes. The model writes exactly the 200 cells and keeps bytes 600 and above as they were, where the source leaves them undefined.
- The commented-out small "Z" and the other half of the big "Z" (lines 165-175, 192-203) are left out because they are dead code.
- The notify at line 145 is left out: `outbox` holds the values set on the Tx characteristic at line 144, and the notify that follows each one goes out on the separate notify characteristic (line 114), whose value nothing in the file sets. The model does not track that notification or its payload.
- Tracker.AtMostOneRestartPerDisconnect: only the "at most once" half holds; restarts can be fewer than disconnect edges. A connection shorter than one tick (both callbacks between two `loop()` calls) leaves `oldDeviceConnected` false, so line 128 never holds and advertising is not restarted (`Tracker.ShortConnectionNoRestart`). Whether that matters depends on whether the BLE library stops advertising on connect, which is not part of this model.
- Concurrency is left out: the BLE callbacks run on the BLE stack's task, also while `loop()` waits in `delay(500)` at line 129, but the model runs every callback and every tick to completion before the next one starts.

## Findings

| source | as written | input that shows it | evidently intended | confidence | as-written member | corrected member |
|---|---|---|---|---|---|---|
| Firmware/led_remixer_firmware/led_remixer_ble.cpp:210 | the demo loop runs `i < sizeof(zonar)`, which is 800 for `int zonar[200]`. It reads zonar[200..799] and writes pattern bytes up to 2399 | the legacy magic `61 73 64 66` | loop over the 200 cells and write pattern bytes 0..599 | high; not executed | `Findings.SourceDemoLoopOverruns` | `Remixer.LedRemixerBle.FillDemoPattern` |
| Firmware/led_remixer_firmware/led_remixer_ble.cpp:236-240 | the copy runs to the declared `frameHeight * frameCount * 3` with no check against the buffer length or the capacity | `D0 04 FF FF D1` | reject with Error and leave the store unchanged, as the comment at line 236 asks | high; not executed | `Findings.SourceCopyOverruns` | `Dispatch.SetPatternRejected` |
| Firmware/led_remixer_firmware/led_remixer_ble.cpp:206-235 | the header tests read bytes without checking the length. The magic test's `&` reads bytes 2 and 3 of any buffer starting `61 73`, and SetPattern reads byte 3 of a three-byte frame | `61 73`; `D0 04 D1`; the empty buffer | treat a short buffer as unrecognised or refuse it, without reading past its end | high for `61 73` and `D0 04 D1`, medium for the empty buffer (the BLE stack may never deliver an empty write); not executed | `Findings.SourceShortMagicOverreads`, `Findings.SourceShortPatternOverreads`, `Findings.SourceEmptyOverreads` | `Findings.GuardedHeaderTotal` |
