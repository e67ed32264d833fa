# Wii Balance Board driver, modelled in Dafny

This project models the driver in `src/wii_balance_board.py`. The driver receives reports of up to 25 bytes (`recv(25)`) from a Nintendo balance board over Bluetooth. It turns extension reports into weight events, loads the board's calibration, and sends control commands back to the board. The model covers the driver's state and byte formats:

- the 3x4 calibration matrix and its sentinel start value;
- `calibration_parser`, which writes the matrix in place from 16-byte and shorter chunks;
- `calc_mass`, the piecewise-linear conversion from raw readings to kilograms, over `real`;
- `create_board_event`, which decodes the button word and four sensor words and updates the button latch;
- the command payloads and `send`, which rewrites the first byte to the output-report header 0x52 and sends nothing unless connected;
- `connect` once its sockets are open, one step of the receive loop, and the loop over a list of frames. The event stack holds at most 1024 events and drops a new event when full.

Layout:

- `bytes.dfy` (module `Bytes`): bytes, big-endian words, Python slicing, the report-type reading, and the exceptions as `Fault`.
- `calibration.dfy` (`Calibration`): the matrix, the parser specification and `CalcMass`.
- `events.dfy` (`Events`): `BoardEvent` and the decoder specification.
- `commands.dfy` (`Commands`): command payloads and the 0x52 rewrite.
- `board_state.dfy` (`BoardState`): the driver's fields as a `Snapshot` value, one function per driver operation, and the lemmas about them.
- `driver.dfy` (`Driver`): class `Wiiboard`. The calibration matrix is an `array2` written cell by cell, as in the source. Each method is proved to change the fields exactly as the matching `BoardState` function says.

Python exceptions become values. `int('', 16)` on a missing byte is `MissingByte`. `int('3a')` on a report type with a hex digit above 9 is `NonDecimalType`. Division by zero in `calc_mass` is `ZeroDivision`. Fields written before an exception stay written: the cells of row 2 that the parser filled, and the button latch.

Sends are appended to `outbox`, a list of the byte strings written to the control socket. Received frames are method inputs.

## Behaviour of the code worth knowing

Each point below follows from the cited lines of `src/wii_balance_board.py`, and the named lemmas state it.

- A reading equal to the 17 kg reference converts to 0 kg, whatever the references (`AtSeventeenReference`). `calc_mass` starts from `val = 0.0` (203) and returns it unchanged (220). When c1 < c0 the first branch (207-208) already returns 0. When c0 <= c1 none of the branches at 207, 209 and 214 fires, because their tests are `raw < c0`, `raw < c1` and `raw > c1`. When the 0 kg reference is more than one count below the 17 kg reference, one count below the 17 kg reference therefore weighs more than the reference itself (`DipAtSeventeenReference`). Otherwise both readings weigh 0. The conversion is monotone only away from that point (`MonotoneOffReference`).
- The third branch (214-218) divides by c2 - c1 whatever its sign. With c2 < c1 a reading above c1 weighs less than 17 kg, and from 2c1 - c2 upwards it weighs 0 kg or less (`SecondSegment`).
- `lastEvent` is assigned only in the constructor (68), so the test at 183 never holds. `buttonReleased` is never true and the latch is never cleared. `buttonPressed` is true on every report whose button word is 8 (176-177). Holding the button for two reports and then letting go gives pressed, pressed, not pressed, and never a release (`HoldThenRelease`). `get_event` (222-223) returns that constructor event (`Driver.Wiiboard.GetEvent`).
- The short-chunk loop (237-242) always reads four words, so a chunk for the 34 kg row needs 8 bytes. A 4-byte chunk writes two cells and then raises (`TruncatedChunk`). A 16-byte chunk followed by an 8-byte chunk installs a whole matrix (`CalibrationRoundTrip`, `CalibrationHandshake`).
- The read-data branch slices `data[7:7 + length]` (120-122). A frame shorter than its header announces hands the parser only what arrived. The request at 125-127 is cleared by the announced length, not by what arrived (`TruncatedReadData`).
- On an uncalibrated board every cell is 10000 (60-65). A raw reading above 10000 then raises ZeroDivisionError, because the 17 kg and 34 kg references coincide (`SentinelColumn`).
- Nothing in `receive` (108-139) catches an exception, except `queue.Full` around the push at 131-134. A malformed frame or a division by zero ends the loop before line 138, so the status stays `Connected` (`SessionKeepsInvariant`).

## Model

| member | source | states |
|---|---|---|
| Bytes.Word | src/wii_balance_board.py:188-191 | a sensor or button word lies in [0, 65536) |
| Bytes.WordRoundTrip | src/wii_balance_board.py:188-191 | splitting a word gives back the high and low bytes it was made from, so the two-byte encoding is lossless |
| Bytes.WordBytes | src/wii_balance_board.py:233-235 | the two bytes of a 16-bit word, high byte first, read back as that word (the chunk layout the parser expects) |
| Bytes.DecimalAsHex | src/wii_balance_board.py:262 | spelling a decimal constant as hex digits (`str(11)` inside a hex string) puts its tens and units digits in the high and low nibble |
| Bytes.HexAsDecimal | src/wii_balance_board.py:113 | reading a byte's hex digits as decimal succeeds exactly when both digits are below 10, and the result is below 100 |
| Bytes.HexDecimalInverse | src/wii_balance_board.py:113 | the two readings are inverse in both directions: `int(b.hex()) == n` iff `b` is `n` written as hex digits |
| Bytes.ReportType | src/wii_balance_board.py:112-113 | the type is readable iff the frame has two bytes and the second byte's digits are decimal; otherwise the ValueError is MissingByte or NonDecimalType |
| Bytes.ReportTypeIs | src/wii_balance_board.py:113-128 | a frame has type t iff its second byte spells t in hex digits, so types 20, 21 and 32 are the bytes 0x20, 0x21 and 0x32 |
| Calibration.InitialMatrix | src/wii_balance_board.py:60-65 | every cell of the initial matrix is the sentinel 10000 |
| Calibration.ParseCalibration | src/wii_balance_board.py:228-242 | the parser raises exactly for chunks shorter than 8 bytes, and always leaves a 3x4 matrix |
| Calibration.FullChunk | src/wii_balance_board.py:230-236 | a 16-byte chunk sets cell (i, j) of rows 0 and 1 to word 4i+j of the chunk, and row 2 is unchanged |
| Calibration.ShortChunk | src/wii_balance_board.py:237-242 | an 8- to 15-byte chunk sets row 2 from its first four words, and rows 0 and 1 are unchanged |
| Calibration.TruncatedChunk | src/wii_balance_board.py:237-242 | a chunk under 8 bytes raises after writing the row-2 cells whose byte pair is complete; nothing else changes |
| Calibration.OverlongChunk | src/wii_balance_board.py:228-242 | a chunk over 16 bytes changes nothing |
| Calibration.RowBytesRoundTrip | src/wii_balance_board.py:233-241 | four words written high byte first are read back as the same row |
| Calibration.FirstChunkRoundTrip | src/wii_balance_board.py:228-236 | the 16-byte chunk of two rows' bytes sets the 0 kg and 17 kg rows to exactly those rows and keeps the 34 kg row |
| Calibration.SecondChunkRoundTrip | src/wii_balance_board.py:237-242 | the 8-byte chunk of a row's bytes sets the 34 kg row to exactly that row and keeps the other two |
| Calibration.CalibrationRoundTrip | src/wii_balance_board.py:228-242 | parsing a 16-byte chunk of rows 0 and 1, then an 8-byte chunk of row 2, reproduces the matrix they were made from |
| Calibration.CalcMass | src/wii_balance_board.py:202-220 | the conversion fails only with ZeroDivision |
| Calibration.CalcMassRaises | src/wii_balance_board.py:214-218 | the conversion raises iff raw is at least the 0 kg reference, above the 17 kg reference, and the 17 kg and 34 kg references are equal |
| Calibration.BelowZeroReference | src/wii_balance_board.py:207-208 | below the 0 kg reference the weight is 0 |
| Calibration.FirstSegment | src/wii_balance_board.py:209-213 | between the 0 kg and 17 kg references the weight is 17(raw-c0)/(c1-c0), which lies in [0, 17) |
| Calibration.SecondSegment | src/wii_balance_board.py:214-218 | above both lower references, whenever c2 != c1, the weight is 17 + 17(raw-c1)/(c2-c1); it is above 17 when c2 > c1, below 17 when c2 < c1, and at most 0 when c2 < c1 and raw >= 2c1 - c2 |
| Calibration.AtZeroReference | src/wii_balance_board.py:203-220 | a reading equal to the 0 kg reference (with c0 <= c1) weighs 0 |
| Calibration.AtSeventeenReference | src/wii_balance_board.py:203-220 | a reading equal to the 17 kg reference weighs 0 whatever the references: through the first branch when c1 < c0, and by falling through every branch otherwise |
| Calibration.DipAtSeventeenReference | src/wii_balance_board.py:203-220 | when the 0 kg reference is more than one count below the 17 kg reference, one count below the 17 kg reference weighs more than the reference itself, so the conversion is not monotone |
| Calibration.MonotoneOffReference | src/wii_balance_board.py:202-220 | with ordered references, the conversion is monotone over readings other than the 17 kg reference |
| Calibration.SentinelColumn | src/wii_balance_board.py:63-65 | with the sentinel matrix, a reading up to 10000 weighs 0 in every column and a higher one raises ZeroDivision |
| Events.NewBoardEvent | src/wii_balance_board.py:34-45 | the event record: four weights, the two button flags, and the total fixed at construction as the sum of the four weights; `DecodedWeights` proves that sum for every decoded event |
| Events.DecodeEvent | src/wii_balance_board.py:169-200 | create_board_event: a failure is MissingByte exactly when the payload has fewer than ten bytes, and otherwise ZeroDivision; `DecodedWeights`, `DecodedButtons` and `Driver.Wiiboard.CreateBoardEvent` relate it to the source in full |
| Events.DecodedWeights | src/wii_balance_board.py:188-200 | decoding succeeds iff all ten bytes are there and every sensor converts; the weights come from words 1-4 (TR, BR, TL, BL) through columns 0-3, and the total is their sum |
| Events.DecodedButtons | src/wii_balance_board.py:170-186 | pressed iff the button word is 8; released iff not pressed and the remembered event was pressed; never both; a press sets the latch and a release clears it; a payload without a button word raises and leaves the latch alone |
| Events.NeverReleasedFromInitial | src/wii_balance_board.py:176-186 | with the constructor's event remembered, no event is released and the new latch is the old latch or the press |
| Events.DecodeSucceeds | src/wii_balance_board.py:169-200 | when all four sensors convert, the event carries those four weights, pressed iff the button word is 8, released iff not pressed and the remembered event was pressed; the latch is set by a press and cleared by a release |
| Events.PayloadWords | src/wii_balance_board.py:175-191 | the button and sensor words read back from an extension payload are the ones it was made from |
| Events.ZeroLoadWeighsZero | src/wii_balance_board.py:188-213 | sensor words equal to the 0 kg references (each at most its 17 kg reference) decode to four zero weights and a zero total |
| Events.UncalibratedEmpty | src/wii_balance_board.py:169-220 | on an uncalibrated board any full payload with zero sensor words decodes to an empty event, never a release, with the latch set iff it was set or the button word is 8 |
| Events.QuietReport | src/wii_balance_board.py:169-200 | on an uncalibrated board, all-zero sensor words decode to an empty event that is pressed iff the button word is 8 |
| Events.HoldThenRelease | src/wii_balance_board.py:176-186 | button down, down, up decodes to pressed, pressed, not pressed; no event is released, and the latch stays set |
| Commands.Payload | src/wii_balance_board.py:257-281 | every command payload starts with the placeholder byte 00 and has at least three bytes |
| Commands.OutputBytes | src/wii_balance_board.py:246-252 | the bytes sent are 0x52 followed by everything after the payload's first byte |
| Commands.WireBytes | src/wii_balance_board.py:256-282 | the wire bytes are 52 11 10 / 52 11 00 for the light, 52 17 04 A4 00 24 00 18 for calibration, 52 16 04 A4 00 40 00 for the extension, 52 12 04 32 for the report type |
| Commands.WireIdentifiesCommand | src/wii_balance_board.py:10-14 | each command's second wire byte reads back as its decimal code (11, 12, 16, 17), and distinct commands give distinct bytes |
| BoardState.Fresh | src/wii_balance_board.py:55-70 | a new driver is well formed (3x4 matrix, empty stack, constructor event), has no released events and no event with an inconsistent total |
| BoardState.AfterSend | src/wii_balance_board.py:246-252 | send as a function of the driver's state; `SendGate` proves it appends one output report iff connected and changes nothing else |
| BoardState.AfterSetLight | src/wii_balance_board.py:256-264 | set_light as a function of the state; `SetLightEffect` proves it sends 52 11 10 or 52 11 00 only when connected and records the LED either way |
| BoardState.AfterCalibrate | src/wii_balance_board.py:266-272 | calibrate as a function of the state; `CalibrateEffect` proves it sends the calibration read only when connected and sets the request either way |
| BoardState.AfterSetReportType | src/wii_balance_board.py:274-282 | set_report_type as a function of the state; `SetReportTypeEffect` proves it sends 52 12 04 32 only when connected and changes nothing else |
| BoardState.AfterConnect | src/wii_balance_board.py:84-97 | connect once the sockets are open, as a function of the state; `ConnectEffect` gives its exact result |
| BoardState.Push | src/wii_balance_board.py:131-134 | put_nowait on the 1024-place stack: nothing on the stack is removed or replaced; the event goes on top iff the stack is not full, otherwise it is dropped; a stack within 1024 stays within it |
| BoardState.AfterReceive | src/wii_balance_board.py:111-136 | one loop iteration on a frame: type 20 re-sends the report type, type 21 runs the parser while calibration is requested, type 32 decodes and pushes, other types do nothing, an unreadable type raises; the matrix stays 3x4 |
| BoardState.AfterSession | src/wii_balance_board.py:108-139 | the loop over the frames received while connected: it stops at the first exception and otherwise ends Disconnected; the matrix stays 3x4; `SessionKeepsInvariant` proves its invariant |
| BoardState.SendGate | src/wii_balance_board.py:246-252 | send appends one output report iff connected, and changes nothing else |
| BoardState.SetLightEffect | src/wii_balance_board.py:256-264 | set_light sends 52 11 10 or 52 11 00 only when connected, and records the LED state either way |
| BoardState.CalibrateEffect | src/wii_balance_board.py:266-272 | calibrate sends the calibration read only when connected, and sets calibrationRequested either way |
| BoardState.ConnectEffect | src/wii_balance_board.py:84-97 | connect(None) changes nothing; connect(a) leaves the driver connected to a with calibration requested, having sent the calibration read, the extension enable and the report type, in that order |
| BoardState.SetReportTypeEffect | src/wii_balance_board.py:274-282 | set_report_type sends 52 12 04 32 only when connected, and changes nothing else |
| BoardState.ReceiveKeepsInvariant | src/wii_balance_board.py:111-136 | one receive step keeps the stack within 1024 and leaves status, address, LED and remembered event alone; the stack is unchanged or grows by one event on top, which is not released and whose total is the sum of its weights |
| BoardState.FullStackUnchanged | src/wii_balance_board.py:131-134 | a full stack is left unchanged by every receive step |
| BoardState.StatusReport | src/wii_balance_board.py:114-116 | a status report re-sends the report type and changes nothing else |
| BoardState.ReadDataReport | src/wii_balance_board.py:117-127 | a read-data report without a request is ignored, whatever its length; with a request, a frame of 2-4 bytes raises MissingByte at the length byte and changes nothing; a frame holding the whole announced payload parses bytes 7 to 7+(d[4]>>4), raises iff that length is under 8, and clears the request iff it is 8 to 15 |
| BoardState.TruncatedReadData | src/wii_balance_board.py:117-127 | a read-data report shorter than its header announces parses only bytes 7 to the end; it raises iff fewer than 8 arrived, and the request is cleared only if at least 8 arrived and fewer than 16 were announced |
| BoardState.ExtensionReport | src/wii_balance_board.py:128-134 | an extension report of any length decodes bytes 2 to 11 as far as they arrived; the event is pushed unless the stack is full, and the latch update is kept even when decoding raises |
| BoardState.ShortExtensionReport | src/wii_balance_board.py:128-129 | an extension report of 2 to 11 bytes raises MissingByte and pushes nothing, after setting the latch if its button word arrived and is 8, or clearing it on a release |
| BoardState.OtherReport | src/wii_balance_board.py:135-136 | any other type changes nothing; an unreadable type raises and changes nothing |
| BoardState.ReadDataFrameParts | src/wii_balance_board.py:120-122 | the receive step reads back the payload length and payload of a read-data frame |
| BoardState.CalibrationHandshake | src/wii_balance_board.py:117-127 | with calibration requested, a 16-byte then an 8-byte read-data report install the whole matrix and clear the request |
| BoardState.SessionKeepsInvariant | src/wii_balance_board.py:108-139 | a receive session keeps the stack within 1024 and only pushes; no stacked event is released and each total is the sum of its weights; it ends disconnected unless an exception ended it, which leaves it connected |
| Driver.Wiiboard.constructor | src/wii_balance_board.py:49-70 | the new driver's state is Fresh(): every cell 10000, disconnected, all flags false, empty stack and outbox |
| Driver.Wiiboard.IsConnected | src/wii_balance_board.py:80-81 | true iff the status is Connected |
| Driver.Wiiboard.GetLed | src/wii_balance_board.py:225-226 | returns the recorded LED state |
| Driver.Wiiboard.GetEvent | src/wii_balance_board.py:222-223 | returns the remembered event, which on every valid driver is the constructor's: no weight, not pressed, not released |
| Driver.Wiiboard.Send | src/wii_balance_board.py:246-252 | the fields change as AfterSend says: one output report appended iff connected |
| Driver.Wiiboard.SetLight | src/wii_balance_board.py:256-264 | the fields change as AfterSetLight says: the LED command sent iff connected, the LED recorded either way |
| Driver.Wiiboard.Calibrate | src/wii_balance_board.py:266-272 | the fields change as AfterCalibrate says: the calibration read sent iff connected, the request set either way |
| Driver.Wiiboard.SetReportType | src/wii_balance_board.py:274-282 | the fields change as AfterSetReportType says: 52 12 04 32 sent iff connected |
| Driver.Wiiboard.Connect | src/wii_balance_board.py:84-97 | the fields change as AfterConnect says: connected to the address with calibration requested and three commands sent, or nothing for no address |
| Driver.Wiiboard.CalibrationParser | src/wii_balance_board.py:228-242 | the in-place nested loops leave the array equal to ParseCalibration of the old matrix and raise exactly when it does; no other field changes |
| Driver.Wiiboard.CreateBoardEvent | src/wii_balance_board.py:169-200 | the returned event and the new latch are those of DecodeEvent; no other field changes |
| Driver.Wiiboard.ReceiveStep | src/wii_balance_board.py:111-136 | the fields and the exception are those of AfterReceive |
| Driver.Wiiboard.Receive | src/wii_balance_board.py:108-139 | the fields and the exception are those of AfterSession |

## Left out

- Bluetooth I/O: creating the two L2CAP sockets and the "Bluetooth not found" error (lines 72-76), the socket `connect` calls (88-89), `recv` (112), `controlsocket.send` (252) and the socket closes. Sends are modelled as appends to `outbox`, and frames are inputs.
- Driver.Wiiboard.Connect: models `connect` after both sockets have opened. A socket error at lines 88-89 raises before any field changes. The `else` branch at lines 99-100 cannot run, because socket objects are always true.
- `disconnect` (141-154): it waits in a loop until another thread changes the status, then closes the sockets. There is no second thread in the model.
- `start_service` (102-106), the `finished` flag (78, 103), and thread safety of the event queue: the model is single-threaded.
- Driver.Wiiboard.Receive: the real loop ends when another thread sets the status to Disconnecting. The model instead runs over the list of frames received before that happens.
- `discover` (157-167): it scans for devices through the PyBluez library, which is not part of this model.
- `wait` (284-285) and all `print` logging.
- Calibration.CalcMass: uses exact `real` arithmetic, not IEEE double rounding. The same holds for `totalWeight` in Events.NewBoardEvent (line 45), whose float sum is modelled as an exact sum.
- The hex-string assembly of commands: the model builds the resulting bytes directly, spelling the decimal constants as hex digits with `DecimalAsHex`.
- Taking events off the stack: the consumer calls `EventQueue.get` outside the driver, so only the driver's push is modelled.
- `src/entrypoint.py`: pygame set-up and scene wiring over modules that are not part of this model.
