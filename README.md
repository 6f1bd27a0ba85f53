# Novecento DAQ client protocol in Dafny

This project models the protocol core of a Python client for the Novecento
bioelectric acquisition box. The client talks to the box over TCP:

- it builds a 15-byte configuration frame that ends in a CRC-8;
- it sends 2-byte command frames (1 = settings, 2 = firmware, 3 = battery);
- from the 20-byte settings reply it works out the per-slot channel counts
  and the packet geometry (`Ptr_IN`, `PacketSize1Block`, `blockData`);
- it cuts the incoming byte stream into blocks of `blockData` bytes and
  decodes each block as little-endian int16 samples, reshaped column-major
  into a `PacketSize1Block x 500` matrix;
- it extracts the 16 aux rows that follow the input channels;
- it stops the box with an all-zero frame.

The repository holds three copies of this logic, and each copy is modelled:

- `utils/daq_receiver.py` (module `Receiver`): the thread the application
  uses, with guarded reply parsing.
- `new_app.py` (module `Novecento`): `MainWindow`, which runs the handshake
  itself over module-global slot tables.
- `old_code/app.py` (module `Legacy`): the earlier thread the first copy
  was derived from.

The shared parts are modelled once:

- `Crc`: the bit-serial CRC8 of all three copies, including their string
  XOR, proved equal to a byte-wise reflected CRC-8 (polynomial 0x8C,
  "CRC-8/MAXIM").
- `Frames`: the configuration, command and stop frames.
- `Geometry`: the slot loop and the packet geometry.
- `Stream`: reassembly, int16 decoding, the column-major reshape and the
  aux extraction.

How the environment is modelled:

- A reply to `recv(20)` is a parameter.
- The reads of a receive loop are a sequence of chunks.
- Every frame written to the socket is appended to a `sent` field.
- Every matrix handed to the `data_received` signal is appended to `emitted`.

How the three copies differ:

- `daq_receiver.py`:
  - sends the configuration frame, then queries the settings;
  - `send_request` turns any failure into twenty zero bytes;
  - a settings reply shorter than 11 bytes counts as all zeros;
  - an out-of-table type code counts as 0 channels, so the slot loop never raises;
  - the read loop ends on an empty read;
  - `disconnect` always sends the stop frame.
- `new_app.py`:
  - queries firmware, then battery, then settings, then sends the
    configuration frame built from the current global `IN_Active`, then
    queries the settings again;
  - reading `battery_level[1]` or `settings[19]` on a short reply raises and
    ends the attempt;
  - the slot loop on the second reply is unguarded, raises on an
    out-of-table code, and writes the module globals as it goes;
  - before that loop only `Ptr_IN[0]` is reset, so `Size_IN` keeps what an
    earlier attempt wrote; `MainWindow` is modelled with this loop as
    written, and the corrected loop of the Findings is modelled beside it;
  - the receive thread does not stop on an empty read;
  - only the latest `Data`/`Temp` is kept, and `update_realtime_data` extracts
    the aux rows from it.
- `old_code/app.py`:
  - sends the configuration frame first, unguarded;
  - a slot loop that raises ends the thread before anything is stored;
  - the read loop does not stop on an empty read;
  - `stop` both clears `running` and sends the stop frame.
  - `Legacy.LegacyAgreesWithReceiver` and `Legacy.EmitsAtLeastReceiver`
    relate this copy to `daq_receiver.py`.

The settings reply's status byte (`settings[19]`, 0 = no error, 255 = CRC
error) is only printed by `new_app.py` (lines 315-318). Nothing aborts on a
nonzero value. The model follows this: only the reply's length matters.

## Model

| member | source | states |
|---|---|---|
| Crc.StringXorIsXor | utils/daq_receiver.py:16-24 | Comparing the 8-digit binary strings of `crc` and 140 digit by digit and parsing the result is the bitwise XOR with the polynomial 0x8C |
| Crc.XorWithPoly | utils/daq_receiver.py:16-24 | The `k` loop over the two binary strings returns exactly `crc XOR 0x8C` |
| Crc.BitStep | utils/daq_receiver.py:13-24 | One pass of the bit loop keeps the register within a byte |
| Crc.ShiftInByte | utils/daq_receiver.py:12-26 | The eight-step inner loop equals eight LSB-first shift-and-conditional-XOR steps of the register with the data byte |
| Crc.Checksum | utils/daq_receiver.py:6-31 | The checksum of any message fits in a byte, and the empty message has checksum 0 |
| Crc.Crc8 | utils/daq_receiver.py:6-31 | `CRC8(Vector, Len)` returns the checksum of the first `Len` entries, and it fits in a byte; new_app.py:25-43 and old_code/app.py:27-52 are identical copies |
| Crc.ChecksumPrefix | utils/daq_receiver.py:10-29 | Processing one more byte extends the checksum of the prefix by eight bit steps |
| Crc.ChecksumIsReflectedCrc | utils/daq_receiver.py:6-31 | The bit-serial checksum equals the byte-wise reflected CRC-8 with polynomial 0x8C and initial value 0, for every message |
| Crc.SerialIsByteWise | utils/daq_receiver.py:12-26 | Shifting the data bits in one at a time equals XORing the whole byte into the register and then shifting |
| Crc.ChecksumOfZeros | utils/daq_receiver.py:6-31 | The checksum of any run of zero bytes is 0 |
| Crc.ChecksumResidue | utils/daq_receiver.py:6-31 | Appending a message's checksum to it gives a message whose checksum is 0 |
| Crc.CommandChecksums | utils/daq_receiver.py:191 | CRC8 of [1], [2] and [3] is 0x5E, 0xBC and 0xE2 |
| Frames.BuildConfString | utils/daq_receiver.py:128-142 | The frame has 15 bytes: 14 bytes of header, active mask, analog-out bytes and slot bytes, then the checksum of those 14; new_app.py:321-335 and old_code/app.py:140-154 build it the same way |
| Frames.ConfigFrame | utils/daq_receiver.py:127-142 | The configuration frame has 15 entries, and its last entry, the checksum, fits in a byte |
| Frames.HeaderFields | utils/daq_receiver.py:130-132 | Byte 0 fits in a byte and carries bit 7 set, FSelAux in bits 4-6, zeros in bits 2-3, and IN_Active[9] and IN_Active[8] in bits 1 and 0 |
| Frames.ActiveMaskSnoc | utils/daq_receiver.py:133-135 | Each step of the `ConfString[1]` accumulation adds IN_Active[i] times 2^i |
| Frames.ActiveMaskLayout | utils/daq_receiver.py:133-135 | Byte 1 fits in a byte, and its bit i is set exactly when slot i (i < 8) is requested active |
| Frames.SlotByteRoundTrip | utils/daq_receiver.py:138-141 | A slot byte built from in-range Mode/Gain/HPF/HRES/Fsamp fits in a byte and decodes back to the same fields |
| Frames.UnpackSlotRoundTrip | utils/daq_receiver.py:138-141 | Every byte value is the slot byte of exactly the fields read back from it |
| Frames.ConfigFrameBytes | utils/daq_receiver.py:128-142 | For byte-sized settings, every entry of the 15-entry frame fits in a byte, so `bytearray` accepts it |
| Frames.ConfigFrameResidue | utils/daq_receiver.py:142 | The checksum over all 15 bytes of any configuration frame is 0 |
| Frames.DefaultConfigBody | utils/daq_receiver.py:106-141 | With the hard-coded settings, bytes 0-13 are 128, 7, 34, 1, eight times 9, then 8, 8 |
| Frames.CommandFrameBytes | utils/daq_receiver.py:190-191 | The settings, firmware and battery frames are [1,0x5E], [2,0xBC] and [3,0xE2] |
| Frames.CommandFrameResidue | utils/daq_receiver.py:191 | Every command frame has checksum 0 over both of its bytes |
| Frames.CommandFrame | utils/daq_receiver.py:191 | A command frame is two entries: the command code, then a checksum that fits in a byte |
| Frames.BuildStopFrame | utils/daq_receiver.py:205-207 | The stop frame is 15 zero bytes; its byte 14 is the checksum of the first 14 bytes, which is 0 |
| Frames.StopFrame | utils/daq_receiver.py:205-206 | The stop frame has 15 entries; byte 0 has bit 7 clear, which no configuration frame has, and byte 1 activates no slot |
| Geometry.DefaultSlotsOk | utils/daq_receiver.py:106-123 | The hard-coded settings have 10 slots with in-range fields and a valid FSelAux |
| Geometry.SlotSize | utils/daq_receiver.py:170 | A slot's size is 0 exactly when it reports no channels |
| Geometry.SlotSizeAsWritten | utils/daq_receiver.py:170 | The model's size per slot equals `(HRES+1) * FsampVal[Fsamp] // 500 * NumChan` evaluated left to right |
| Geometry.Step | utils/daq_receiver.py:164-171 | One loop iteration keeps IN_Active, NumChan, Size_IN and Ptr_IN at their lengths of 10, 10, 11 and 11 |
| Geometry.Apply | utils/daq_receiver.py:164-171 | Any number of loop iterations keeps the four lists at their lengths |
| Geometry.StepFacts | utils/daq_receiver.py:164-171 | One loop step at slot i changes only entry i of NumChan/IN_Active/Size_IN and entry i+1 of Ptr_IN; it clears IN_Active[i] when the slot reports 0 channels; Size_IN[i] is updated only when the slot stays active |
| Geometry.ApplyFacts | utils/daq_receiver.py:164-171 | After k steps, each slot below k is active exactly when it was requested and reports channels, and its Size_IN is its computed size when active and otherwise what it held before |
| Geometry.ApplyUntouched | utils/daq_receiver.py:164-171 | Slots from k on and Ptr_IN beyond k are untouched after k steps |
| Geometry.ApplyPrefixSums | utils/daq_receiver.py:171 | After k steps, Ptr_IN[j+1] = Ptr_IN[j] + Size_IN[j] for every j < k |
| Geometry.PtrNonDecreasing | utils/daq_receiver.py:171 | After the loop, Ptr_IN is non-decreasing |
| Geometry.FreshIsCleared | utils/daq_receiver.py:152-154 | The freshly allocated lists are all zeros, and IN_Active is the requested flags |
| Geometry.ClearedGeometry | utils/daq_receiver.py:152-173 | From cleared lists, each slot's size is its computed size when it is requested and reports channels and 0 otherwise, and every Ptr_IN[k] is the total of the sizes of slots below k |
| Geometry.NoChannelsNoSlots | utils/daq_receiver.py:164-171 | From cleared lists, a reply reporting no channels leaves every slot inactive and Ptr_IN all zero |
| Geometry.ZeroTotal | utils/daq_receiver.py:164-171 | With no channels anywhere, the total size is 0 |
| Geometry.Lookup | utils/daq_receiver.py:166 | A type code inside ChVsType gives its table entry; any other code gives 0 channels |
| Geometry.GuardedReply | utils/daq_receiver.py:159-162 | `settings_arr` always has at least 11 entries, so `settings_arr[i + 1]` exists for every slot |
| Geometry.Chans | utils/daq_receiver.py:164-166 | The loop reads one channel count for each of the ten slots |
| Geometry.ZeroReplies | utils/daq_receiver.py:158-166 | A reply shorter than 11 bytes, or the twenty zero bytes `send_request` returns on failure, gives 0 channels for every slot |
| Geometry.FirstFailure | old_code/app.py:171-172 | The unguarded loop gets through exactly the first k slots whose type byte exists and lies inside ChVsType; when k < 10, slot k is the one that raises |
| Geometry.UncheckedAgreesWithGuarded | utils/daq_receiver.py:158-166 | When the unguarded loop would not raise, the guarded reading gives exactly the same channel counts |
| Geometry.OutOfTableFails | new_app.py:349 | An out-of-table type code at slot i makes the unguarded loop raise at or before slot i |
| Geometry.UpdateSlot | utils/daq_receiver.py:165-171 | One in-place loop iteration produces the tables of one step |
| Geometry.GuardedGeometry | utils/daq_receiver.py:152-171 | The guarded loop over fresh lists gives the ten-step geometry of the guarded channel counts |
| Geometry.UncheckedGeometry | new_app.py:346-355 | The unguarded loop reports success exactly when no slot raises; the tables hold the steps done before any raise; NumActInputs counts the active slots among them |
| Geometry.CountActiveFrame | new_app.py:354 | The active count depends only on the flags it counts |
| Geometry.PacketSize | utils/daq_receiver.py:173 | After the Ptr_IN[10] input rows, PacketSize1Block has between 16 and 256 aux rows and the 128 trailer rows |
| Geometry.BlockData | utils/daq_receiver.py:174 | blockData is positive exactly when PacketSize1Block is |
| Geometry.BlockSizes | utils/daq_receiver.py:173-174 | PacketSize1Block is at least 144; blockData is positive, even, and twice PacketSize1Block * 500 |
| Geometry.AuxFits | utils/daq_receiver.py:80-94 | For every FSelAux, the SizeAux[FSelAux] aux rows of 500 samples hold exactly 16 * FsampVal[FSelAux] * PlotTime samples |
| Stream.ConcatAppend | utils/daq_receiver.py:68-72 | Concatenating packets distributes over appending packet lists |
| Stream.Blocks | utils/daq_receiver.py:70-72 | The buffer yields a block exactly when it holds at least blockData bytes |
| Stream.Remainder | utils/daq_receiver.py:70-72 | The bytes left buffered are never more than the bytes they were cut from |
| Stream.BlocksSplit | utils/daq_receiver.py:70-72 | The blocks cut off and the leftover buffer concatenate back to the input; every block has blockData bytes; the leftover is shorter |
| Stream.BlocksAppend | utils/daq_receiver.py:68-72 | Cutting blocks after appending a chunk gives the blocks of the old bytes, followed by the blocks of the old leftover plus the chunk |
| Stream.Reassemble | utils/daq_receiver.py:68-72 | `buffer += chunk`, then the inner while loop, returns the whole blocks of buffer+chunk and the leftover shorter than blockData |
| Stream.Int16 | utils/daq_receiver.py:74 | A '<i2' sample lies in [-32768, 32768) |
| Stream.Int16RoundTrip | utils/daq_receiver.py:74 | Decoding two bytes little-endian as int16 lies in [-32768, 32768), and encoding and decoding are inverse |
| Stream.Samples | utils/daq_receiver.py:74 | A packet of even length decodes to half as many int16 samples |
| Stream.ReshapeF | utils/daq_receiver.py:76-78 | The order="F" reshape of rows x cols samples is a rows x cols matrix |
| Stream.ReshapeRoundTrip | utils/daq_receiver.py:76-78 | The Fortran-order reshape and the column-major flattening are inverse |
| Stream.ConfigOf | utils/daq_receiver.py:173-187 | The stored config is consistent with Ptr_IN, and blockData is positive and even |
| Stream.DecodeBlock | utils/daq_receiver.py:74-78 | A packet that passes the length check decodes to a PacketSize1Block x 500 matrix |
| Stream.DecodeBlockAccepts | utils/daq_receiver.py:75 | A block passes the length check exactly when it has 2 * PacketSize1Block * 500 bytes, which is blockData |
| Stream.AuxOf | new_app.py:414-419 | The aux rows exist exactly when the data has PacketSize1Block rows, and then form a 16 x FsampVal[FSelAux] matrix |
| Stream.AuxMatrix | utils/daq_receiver.py:80-94 | The aux rows reshape to a 16 x FsampVal[FSelAux] * PlotTime matrix |
| Stream.AuxEntry | utils/daq_receiver.py:80-94 | The entry (r, c) of the aux matrix is the sample at column-major position r + 16c of the rows Ptr_IN[10] .. -128 |
| Stream.AuxEntryDefault | utils/daq_receiver.py:80-94 | With FSelAux = 0, aux entry (r, c) is sample Ptr_IN[10] + r + c * PacketSize1Block of the block |
| Stream.AuxRowsDefault | new_app.py:414-419 | With FSelAux = 0, the aux matrix is rows Ptr_IN[10] to Ptr_IN[10] + 16 of the block, unchanged |
| Stream.PacketAux | utils/daq_receiver.py:74-94 | A block yields an aux matrix exactly when it has blockData bytes |
| Stream.JoinedPrefix | utils/daq_receiver.py:68 | The bytes read after one more chunk are the earlier bytes plus that chunk |
| Stream.FirstEmpty | utils/daq_receiver.py:66-67 | The loop reads exactly the chunks before the first empty one |
| Stream.Emissions | utils/daq_receiver.py:70-98 | A run emits at most one matrix per block, each 16 x FsampVal[FSelAux] * PlotTime |
| Stream.EmissionsSnoc | utils/daq_receiver.py:74-98 | One more block adds its aux matrix when it passes the length check, and nothing otherwise |
| Stream.EmissionsAppend | utils/daq_receiver.py:70-98 | What two lists of blocks emit is what each emits, in order |
| Stream.BlocksEven | utils/daq_receiver.py:70-74 | Every block cut off has even length, so `frombuffer` accepts it |
| Stream.EmissionsOfBlocks | utils/daq_receiver.py:70-98 | Blocks of blockData bytes emit one aux matrix each, in order |
| Stream.Latest | new_app.py:394-401 | `Data` keeps its old value or holds a PacketSize1Block x 500 matrix |
| Stream.LatestSnoc | new_app.py:397-401 | A block that passes the length check replaces `Data`; any other block leaves it |
| Stream.LatestAppend | new_app.py:394-401 | Decoding two lists of blocks in turn is decoding their concatenation |
| Stream.LastSamples | new_app.py:397 | `Temp` holds the samples of the last block decoded, or its old value when none was |
| Stream.LatestIsLast | new_app.py:394-401 | When every block has blockData bytes, `Data` ends as the reshape of the last block |
| Stream.LatestOfStream | new_app.py:392-401 | Of any stream cut into blocks of blockData bytes, `Data` ends as the decode of the last whole block, which always passes the length check |
| Receiver.RequestReply | utils/daq_receiver.py:190-197 | A failed exchange yields the twenty zero bytes |
| Receiver.ConfigFor | utils/daq_receiver.py:151-187 | The stored config, computed from the guarded reply, is consistent, has a positive blockData and keeps FSelAux |
| Receiver.DaqReceiver.constructor | utils/daq_receiver.py:49-55 | Not running, no socket, empty config, nothing sent or emitted |
| Receiver.DaqReceiver.SendRequest | utils/daq_receiver.py:190-197 | With a socket, sends [command, CRC8] and returns the reply, or twenty zeros when the exchange fails; without a socket, sends nothing and returns twenty zeros |
| Receiver.DaqReceiver.ConnectDaq | utils/daq_receiver.py:104-188 | Sends the configuration frame, then the settings query, and always stores the guarded geometry |
| Receiver.DaqReceiver.QuerySettings | utils/daq_receiver.py:151-174 | Sends the settings query and returns the config computed from the guarded reply |
| Receiver.DaqReceiver.Run | utils/daq_receiver.py:57-102 | After connecting, emits the aux matrix of every whole block of the bytes read before the first empty read, in order and independent of chunk boundaries; then sends config, query and stop frame, in that order, and the socket stays set |
| Receiver.DaqReceiver.Receive | utils/daq_receiver.py:61-98 | The read loop emits the aux matrices of the whole blocks of the chunks before the first empty one |
| Receiver.DaqReceiver.Feed | utils/daq_receiver.py:68-98 | One read keeps the buffer equal to the leftover of everything read, and the emissions equal to those of all whole blocks so far |
| Receiver.DaqReceiver.EmitAll | utils/daq_receiver.py:70-98 | Each packet is decoded and its aux matrix emitted in order when it passes the length check |
| Receiver.DaqReceiver.Stop | utils/daq_receiver.py:199-200 | Clears `running` |
| Receiver.DaqReceiver.Disconnect | utils/daq_receiver.py:202-217 | Sends the all-zero stop frame exactly when a socket was opened |
| Novecento.WithActive | new_app.py:321-335 | The configuration frame is built from the current global IN_Active, with the other settings unchanged |
| Novecento.HandshakeFrames | new_app.py:299-343 | The handshake writes 2, 3 or 5 frames, depending on whether the battery reply has byte 1 and the first settings reply has byte 19 |
| Novecento.HandshakeShortBattery | new_app.py:299-309 | A battery reply without byte 1 stops the handshake after the firmware and battery queries |
| Novecento.HandshakeShortSettings | new_app.py:311-315 | A first settings reply without byte 19 stops it after the settings query |
| Novecento.HandshakeFull | new_app.py:299-343 | A full handshake writes firmware query, battery query, settings query, configuration frame, settings query |
| Novecento.Attempt | new_app.py:345-355 | The corrected attempt, with Size_IN cleared first, keeps the lists at their lengths; its geometry is stated by AttemptSizes |
| Novecento.AttemptAsWritten | new_app.py:345-355 | The attempt as written, with only Ptr_IN[0] reset, keeps the lists at their lengths; what it leaves in Size_IN is shown by StaleSizeCounterexample |
| Novecento.Restart | new_app.py:345-347 | The corrected loop start clears Size_IN and Ptr_IN[0] and keeps IN_Active and NumChan |
| Novecento.AttemptSizes | new_app.py:345-358 | After a corrected attempt that reaches every slot, inactive slots have size 0, Ptr_IN is non-decreasing, and Ptr_IN[10] is the total size of the slots requested and reporting channels, whatever earlier attempts left |
| Novecento.StaleSizesKept | new_app.py:345-355 | As written, a readable reply with no channels makes every slot inactive, keeps every earlier Size_IN, and chains Ptr_IN over them |
| Novecento.FirstReplyFacts | new_app.py:349 | A reply whose slot-3 type byte is 16 raises at slot 3 after reading 14 channels for slots 0-2 |
| Novecento.ZeroReplyFacts | new_app.py:349 | Twenty zero bytes are readable for every slot and report no channels |
| Novecento.FirstAttemptSizes | new_app.py:345-355 | With the hard-coded settings, the attempt on that reply gives slots 0-2 size 56 and the rest 0 |
| Novecento.StaleSizeCounterexample | new_app.py:345-357 | A first attempt that raises at slot 3, followed by an all-zero second reply: as written, every slot is inactive yet Ptr_IN[10] = 168; corrected, it is 0 |
| Novecento.MainWindow.constructor | new_app.py:170-187 | Nothing connected or received; the globals as initialised at lines 51-100 |
| Novecento.MainWindow.SendCommand | new_app.py:300-301 | Writes [code, CRC8([code], 1)] |
| Novecento.MainWindow.Handshake | new_app.py:299-343 | Writes exactly the handshake frames for the given replies; succeeds exactly when battery byte 1 and settings byte 19 exist |
| Novecento.MainWindow.SendConfig | new_app.py:337-342 | Writes the configuration frame, then the settings query |
| Novecento.MainWindow.ConnectNovecento | new_app.py:292-385 | An unreachable box writes nothing and fails; otherwise writes the handshake frames; whenever the loop ran, the globals hold the result of the slot loop as written (only Ptr_IN[0] reset), and the window connects exactly when the handshake completed and the loop reached every slot; a failed connection leaves the geometry and the thread flag as they were; either way the window stays Valid, so on success PacketSize1Block and blockData match the new tables and receiving can follow |
| Novecento.MainWindow.Negotiate | new_app.py:299-358 | On an open socket: handshake from the current IN_Active, then the as-written slot loop only when no reply read raised; connected exactly when that loop reached every slot, the geometry untouched otherwise |
| Novecento.MainWindow.ComputePacketSize | new_app.py:345-367 | The globals become the as-written attempt's tables (Size_IN not cleared); connected, with the geometry of Ptr_IN[10] and the thread started, exactly when no slot raised; on a raise the geometry and the thread flag keep their old values |
| Novecento.MainWindow.Config | new_app.py:357-358 | The stored geometry is consistent, with a positive blockData |
| Novecento.MainWindow.ReceiveData | new_app.py:387-405 | After the reads, `Data` is the latest block that passed the length check, and `Temp` the samples of the latest block; with any whole block, `Data` is the last one decoded |
| Novecento.MainWindow.Take | new_app.py:392-401 | One read keeps the buffer equal to the leftover, and Data/Temp equal to the decode of every whole block so far |
| Novecento.MainWindow.Decode | new_app.py:394-401 | Decoding a list of blocks in order leaves the latest Data and Temp |
| Novecento.MainWindow.UpdateRealtimeData | new_app.py:407-419 | No aux data without a block or while not animating; otherwise a 16-row aux matrix, which for FSelAux = 0 is rows Ptr_IN[10] .. +16 of `Data` |
| Novecento.MainWindow.CloseEvent | new_app.py:587-609 | With a socket, sets the terminate event; writes the stop frame exactly when the socket is connected |
| Legacy.LegacyConfig | old_code/app.py:164-191 | A config is stored exactly when the unguarded loop reaches every slot; it is then consistent |
| Legacy.LegacyAgreesWithReceiver | old_code/app.py:164-191 | When the old loop does not raise, it stores exactly the config `daq_receiver.py` computes from the same reply |
| Legacy.JoinedAppend | old_code/app.py:76-77 | The bytes read from two runs of chunks are the concatenation of each run's bytes |
| Legacy.EmitsAtLeastReceiver | old_code/app.py:74-111 | On the same reads, the matrices the current copy emits are a prefix of those the old copy emits |
| Legacy.DaqReceiver.constructor | old_code/app.py:63-67 | Not running, no socket, no config, nothing sent or emitted |
| Legacy.DaqReceiver.SendRequest | old_code/app.py:193-197 | Sends [command, CRC8] and returns the reply unchanged |
| Legacy.DaqReceiver.ConnectDaq | old_code/app.py:113-191 | Sends the configuration frame, then the settings query; stores the config exactly when the unguarded loop reaches every slot |
| Legacy.DaqReceiver.Run | old_code/app.py:69-111 | Sets running and connects; when the loop raised, emits nothing; otherwise emits the aux matrix of every whole block of all bytes read, empty reads included, and sends nothing after the loop; the socket stays set, so a later `stop` sends the stop frame |
| Legacy.DaqReceiver.Receive | old_code/app.py:74-111 | The read loop emits the aux matrices of the whole blocks of all the chunks |
| Legacy.DaqReceiver.Feed | old_code/app.py:76-107 | One read keeps the buffer equal to the leftover, and the emissions equal to those of all whole blocks so far |
| Legacy.DaqReceiver.EmitAll | old_code/app.py:79-107 | Each packet is decoded and its aux matrix emitted in order when it passes the length check |
| Legacy.DaqReceiver.Stop | old_code/app.py:199-208 | Clears running, and sends the stop frame exactly when a socket exists |

## Left out

- Sockets, threads and Qt are not modelled: signals, timers, `join`, `setsockopt` and the receive-buffer size. Replies and reads are parameters; writes are logged in `sent`.
- A connection failure in `connect_daq` of `utils/daq_receiver.py` (the exception path of `run` into `disconnect`) is not modelled; the box is assumed reachable there. `Novecento.MainWindow.ConnectNovecento` takes reachability as a parameter.
- A read that raises inside a receive loop (the `except` branches that `break`) is not modelled; the given reads running out stands for it and for `stop()` / the terminate event.
- Floating point is not modelled: `AuxGainFactor` scaling, `astype(np.int32)` (a no-op on int16 values), baseline removal and channel means in `update_realtime_data`, and the plotting buffers. The aux matrix is kept in raw int16 units.
- The firmware reply and the printed messages are not modelled, since nothing depends on them.
- The status byte `settings[19]` is only printed; it is modelled only through the length check that reading it implies.
- `NumActInputs` is computed by `Geometry.UncheckedGeometry`, but no caller uses it, as in the source.
- Geometry.SlotSize: divides FsampVal[Fsamp] by 500 before multiplying by HRES+1. Geometry.SlotSizeAsWritten proves this equal to the source's left-to-right expression, since every FsampVal entry is a multiple of 500.
- Novecento.MainWindow.ConnectNovecento: the global IN_Active keeps the flags a raising attempt cleared, and the next configuration frame is built from them; this is modelled as written, through `WithActive`.
- Stream.Remainder: its own contract only bounds the length of what stays buffered; that it is exactly the bytes after the blocks, and shorter than blockData, is stated by `Stream.BlocksSplit`.
- Stream.Blocks: its own contract says only when a block appears; that every block has blockData bytes and that the blocks rejoin to the stream is stated by `Stream.BlocksSplit`.
- Legacy.DaqReceiver.Run: an exception in `connect_daq` ends the thread with `running` still true; the model returns there.
- The GUI parts of all three files are outside this model: entry boxes, plots, the animation and `old_code/app.py`'s `MainWindow`.

## Findings

| source | as written | input that shows it | evidently intended | confidence | as-written member | corrected member |
|---|---|---|---|---|---|---|
| new_app.py:345-355 | Before the slot loop only `Ptr_IN[0]` is reset. `Size_IN` is a module global that is written only for active slots, so a slot that is inactive on a later attempt keeps the size an earlier attempt gave it, and `Ptr_IN` adds it in | First attempt: a settings reply with type 1 for slots 0-2 and code 16 for slot 3 raises at slot 3 after setting Size_IN[0..2] = 56. Second attempt: twenty zero bytes make every slot inactive, yet Ptr_IN[10] = 168 | Inactive slots contribute size 0, as in `utils/daq_receiver.py`, which allocates Size_IN afresh on each connect, so Ptr_IN[10] = 0 | not executed | Novecento.StaleSizeCounterexample | Novecento.AttemptSizes |
