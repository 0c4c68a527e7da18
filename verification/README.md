# Verification of the libvhal-client data paths

A Dafny model of the client library's protocol code and of the `aic-emu` test emulator, with proofs about it.
`dafny verify dfyconfig.toml` checks the whole project.

Display protocol, both ends:

- `DisplayProtocol` has the structs, sizes and event codes of the wire; the socket is a queue of typed units,
  one per write.
- `YmlTree`, `YmlScalars`: the YAML the profile log uses (mappings by indentation, integers, flow sequences) and
  how it is read. One number stands for each key literal; both sides spell their keys the same. `LogSpelling`
  compares the spellings of event names and directions.
- `LogStructs`, `LogFile`, `ProfileLog`: what `ProfileLogger` writes. A document is a tree; the class appends lines
  and is proved to append exactly those of the tree.
- `LogDecode`, `LogRoundTrip`, `LogEvents`, `LogDocuments`: `YmlParser` and `DecodeNode`, and what comes back.
- `DisplayReceiver`, `HwcReceiver`: the worker of `VirtualHwcReceiver`, as functions and as the class that updates
  `mHandles` and the log step by step. `FrameLifecycle`: whole sessions.
- `DisplayEmulator`: `CmdHandler` with its map of buffer objects. `Replay`, `ReplayFidelity`, `ReplayAgain`: a
  run recorded by the receiver and replayed from the file; `Recording` has whole sessions and the clients' documents
  among them. `TwoEnded`: both ends with messages in flight.
- `LogLines`, `LogAtomicity`: worker and client threads writing the rows of the log one after the other.

Touch input (`TouchReceiver`, `TouchEvents`, `TouchAccounting`, `TouchTheorems`, `TouchText`), command channel
(`ChannelFraming`, `ChannelTalker`, `ChannelThreads`, `ChannelLists`), pixel conversion (`PixelConversion`, `PixelWrites`), crop
and copy (`FrameCopy`) and GPS (`GpsTransfer`, `GpsSentence`) are independent of it. `Bytes`, `Stores`, `Text`,
`Sequences`, `Strides` and `Wrappers` are shared helpers. The touch events are read back by a consumer of the
Linux multi-touch protocol, type B ("Protocol Example B" of Documentation/input/multi-touch-protocol). The GPS
sentence is the GGA sentence of NMEA 0183.

Where the code departs from what one would expect, the code is kept and the exact condition is proved:

- Unsigned fields print with %d and must be below 2^31 to come back, `remote_handle` below 2^63
  (`UnsignedAt`, `GrallocBack`, `BufferInfoBack`, `DocumentBack`).
- `SET_VIDEO_ALPHA_REQ` has no name-to-code case, display controls are logged where they are not looked up, port
  replies end a replay, a REMOVE of an unknown handle is sent before it ends it, and a DISPLAY_REQ too short for a
  handle is replayed as an empty request for handle 0 (`EventNameBack`, `ControlsAreLost`, `FileReplayed`).
- A stop frees the receiver's handles but logs nothing, so on replay the emulator keeps their buffer objects
  (`KeysFollow`); an alpha request in the log ends the replay (`ClientParsed`).
- A create under a taken key is shown to the handler but never removed (`AllRemovedIffFresh`).
- `UpdateEventCount` runs before the mutex is taken, so a client's document can print a worker event that is not
  logged yet (`PrintedCounts`, `CountRunsAhead`); a DISPPORT_REQ raises the DISPINFO counter.
- A removal whose buffer_info_t could not be read is logged without it, as is such a display, and replayed as a header of type 0 with a
  body that the receiver takes for the next header (`BothEndsAgreeIff`, `FailedReadDisagrees`).
- A create is read to its end only if it also announces 1 to 4 descriptors (`ReadWholeIffMatched`), and a failed
  GEM_CLOSE leaves the emulator one key more (`BothEndsAgreeIff`).
- pitch x height x 4 is an unsigned product; when it wraps, Copy can write past the buffer object
  (`WritesInsideIffProductReaches`).
- `SendReset` leaves `mEnabledSlots` and BTN_TOUCH behind (`EnabledSlotsAccounting`, `TouchSticksIffRough`);
  `substr` takes an end for a length (`ExtraTextHarmlessIffNotStarved`).
- Luma is misplaced for widths that are even but not divisible by 4 (`LumaRightIffWidthMultipleOfFour`).
- Two threads share one receive buffer, and each may make it move while the other holds a pointer into it
  (`ClashSpoils`, `LongMoves`, `ListsSafeIffHarmonious`, `SharedBufferSafeIffAgree`).
- A negative angle that prints as zero loses its hemisphere (`ReencodeIffNotNegativeZero`).

Kernel results (reads, writes, ioctls), allocation of descriptors and times are parameters of the model.

## Model

| member | source | states |
|---|---|---|
| TouchReceiver.VirtualInputReceiver.constructor | include/libvhal/virtual_input_receiver.h:71-90 | a new receiver has ten disabled contacts, no ids used and nothing sent |
| TouchReceiver.VirtualInputReceiver.SendEvent | source/virtual_input_receiver.cc:62-87 | appends one event to what was sent and changes nothing else |
| TouchReceiver.VirtualInputReceiver.SendDown | source/virtual_input_receiver.cc:89-118 | the whole new state, for every slot number: refused out of range, reset first if the slot is taken or ten are counted |
| TouchReceiver.VirtualInputReceiver.Press | source/virtual_input_receiver.cc:101-117 | the part after the reset test: new id, contact, count and the events in order |
| TouchReceiver.VirtualInputReceiver.SendUp | source/virtual_input_receiver.cc:120-137 | the whole new state; never subtracts from a count of zero |
| TouchReceiver.VirtualInputReceiver.SendMove | source/virtual_input_receiver.cc:139-157 | sends geometry for an enabled slot only; contacts and counters unchanged |
| TouchReceiver.VirtualInputReceiver.SendCommit | source/virtual_input_receiver.cc:159-164 | one report |
| TouchReceiver.VirtualInputReceiver.SendReset | source/virtual_input_receiver.cc:166-180 | disables every contact, reports only if one was enabled, and leaves the count and the ids alone |
| TouchReceiver.RunAppend | source/virtual_input_receiver.cc:89-180 | running two lists of commands after each other is running their concatenation |
| TouchAccounting.LedgerIsExact | source/virtual_input_receiver.cc:89-180 | for every command run a protocol-B consumer of the emitted events, the contact array and the counters agree with a ledger of held, stale and free slots |
| TouchTheorems.GentleIffNothingDropped | source/virtual_input_receiver.cc:98-100 | a run drops a contact exactly when it is not gentle, i.e. it resets with a contact down or presses a slot that is down |
| TouchTheorems.GentleRunsRefineIdeal | source/virtual_input_receiver.cc:89-164 | slot refinement: in every run without a dropping reset the consumer sees the slots, ids, last positions and pressures of the plain down/move/up machine, BTN_TOUCH is on exactly while a contact is down, and mEnabledSlots is the number of enabled contacts |
| TouchTheorems.EnabledSlotsAccounting | source/virtual_input_receiver.cc:89-180 | reset accounting over all runs: mEnabledSlots is the enabled contacts plus all contacts ever dropped, so it never falls below them |
| TouchTheorems.TrackingIdsDistinct | source/virtual_input_receiver.cc:103-104 | enabled contacts have pairwise distinct ids below mTrackingId, resets included |
| TouchTheorems.CountersBounded | source/virtual_input_receiver.cc:103-104 | neither counter exceeds the number of commands, so no 32-bit overflow in runs shorter than 2^31 |
| TouchTheorems.TouchSticksIffRough | source/virtual_input_receiver.cc:110-112 | after lifting every slot BTN_TOUCH is still on exactly when some contact was once dropped |
| TouchTheorems.NoTouchEventAfterDrop | source/virtual_input_receiver.cc:110-112 | once a contact has been dropped no further BTN_TOUCH event is sent, whatever commands follow |
| TouchTheorems.TenDropsLeaveOneContact | source/virtual_input_receiver.cc:98-104 | once ten contacts have been dropped at most one contact is enabled after each down |
| TouchText.ExtraTextHarmlessIffNotStarved | source/virtual_input_receiver.cc:305-306 | the text that substr(begin, end) adds after a line changes none of the numbers read, for every line, exactly when the line is not short of numbers it scans for |
| TouchText.ParseHarmlessIff | source/virtual_input_receiver.cc:305-306 | and it never changes the command, for every line, exactly when the line is not short of numbers or is refused for one it has |
| TouchText.ParseStable | source/virtual_input_receiver.cc:188-274 | a line that is not starved parses the same whatever follows its newline |
| TouchText.OneCommandPerNewline | source/virtual_input_receiver.cc:300-310 | for every string the number of commands is the number of newlines |
| TouchText.PiecesActAsLines | source/virtual_input_receiver.cc:305-306 | the pieces substr cuts act as the lines they start with if no line is starved |
| TouchText.PrintedCommandParses | source/virtual_input_receiver.cc:189-274 | the decimal text of a complete command parses to that command |
| TouchText.PrintedMessageExecutes | source/virtual_input_receiver.cc:293-312 | command text round trip: any list of complete commands printed with "\n" or "\n\r" endings executes exactly those commands in order |
| TouchText.StarvedLineTakesNextLine | source/virtual_input_receiver.cc:305-306 | a down line without its pressure takes a number from the next line |
| TouchText.ProcessOneCommand | source/virtual_input_receiver.cc:188-274 | for every string: executes the parsed command or refuses it; every array index stays within the ten slots although slot 10 is admitted |
| TouchText.OnInputMessage | source/virtual_input_receiver.cc:293-312 | for every string the loop ends, begin stays within the message, and the state is the run of all pieces |
| ChannelFraming.HeaderLength | source/command_channel_interface_impl.h:316-331 | the four bytes sent before a message read back as its length, cast to int as the source does |
| ChannelFraming.ReceivedPackets | source/command_channel_interface_impl.h:97-131 | from the stream of any list of sendable messages exactly those are received, in order, before whatever follows |
| ChannelFraming.DeliveredIffSendable | source/command_channel_interface_impl.h:104-111 | a packet is delivered exactly when its length is 1 to 65536 |
| ChannelTalker.Socket.RecvOnce | source/tcp_stream_socket_client_impl.h:93-104 | one ::recv: at least one byte, no more than asked, and the next bytes of the stream, or an error |
| ChannelTalker.Socket.Recv | source/tcp_stream_socket_client_impl.h:88-106 | fills the buffer over any cuts: all bytes in order, or what came before the error |
| ChannelTalker.Socket.Close | source/tcp_stream_socket_client_impl.h:108-114 | marks the socket closed and keeps the position |
| ChannelTalker.CommandChannel.Resize | source/command_channel_interface_impl.h:112-114 | the buffer grows to the message and keeps its bytes; it never shrinks |
| ChannelTalker.CommandChannel.ReadMessage | source/command_channel_interface_impl.h:97-131 | one pass of a talker: the next message to the callback, or the socket closed |
| ChannelTalker.CommandChannel.Talk | source/command_channel_interface_impl.h:89-142 | the whole loop of one connection delivers exactly the messages of the stream, however the kernel cuts it |
| ChannelThreads.FramedDelivery | source/command_channel_interface_impl.h:97-292 | in every interleaving of the three threads, whatever the library does to grow a vector, the activity channel delivers its messages in order; the two that share acs_client_buf_ do so whenever at most one at a time has bytes of a message in it and no resize moves it under a pointer the other has taken |
| ChannelThreads.ClashDelivers | source/command_channel_interface_impl.h:273-278 | a schedule in which the command callback gets the file message laid over its own |
| ChannelThreads.AgreeingPairSafe | source/command_channel_interface_impl.h:192-211 | in every interleaving two messages that agree on their common front, each fitting the vector as the other leaves it, are delivered right |
| ChannelLists.ListsSafeIffHarmonious | source/command_channel_interface_impl.h:187-292 | for any two lists of messages: every interleaving, for every way the library grows a vector, delivers both lists right exactly when one is empty, or any two messages agree on their common front and none is longer than 1024 bytes and the first message of the other channel |
| ChannelLists.HarmoniousRuns | source/command_channel_interface_impl.h:187-292 | in every interleaving of such lists both threads stay in place in their streams, whatever moves |
| ChannelLists.ClashSpoils | source/command_channel_interface_impl.h:273-292 | any two messages that disagree, anywhere in the lists, have a schedule in which the command callback gets a wrong message |
| ChannelLists.LongMoves | source/command_channel_interface_impl.h:192-197 | a message that is too long, anywhere in its list, has a schedule in which the other thread uses a stale pointer |
| ChannelThreads.SharedBufferSafeIffAgree | source/command_channel_interface_impl.h:192-292 | for one message on each channel and any given way of growing: harmless in every interleaving exactly when the two agree on their common front and the resize for one, in either order, leaves room for the other |
| ChannelThreads.MoveBreaksAcs | source/command_channel_interface_impl.h:192-197 | a longer file message whose resize moves the vector leaves the command thread with a stale pointer |
| ChannelThreads.MoveBreaksFtc | source/command_channel_interface_impl.h:273-278 | the same the other way round |
| ChannelThreads.RoomyWhenDoubling | source/command_channel_interface_impl.h:273-275 | for a vector that doubles, there is room in both orders exactly when the lengths are equal, both at most 1024, or both above 1024 and at most 2048 |
| PixelConversion.Yuyv422ToYuv420sp | examples/host_camera_server.cc:136-178 | the nested loops leave the buffer as the converted picture, for every even width and height and flipuv, and make the stores of `PictureStores` in order |
| PixelConversion.ConvertPair | examples/host_camera_server.cc:153-174 | one pass of the inner loop: luma bytes, and chroma bytes on odd-numbered rows |
| PixelConversion.ConvertRow | examples/host_camera_server.cc:152-176 | one row: its luma run and its chroma runs |
| PixelConversion.PlanesAreRight | examples/host_camera_server.cc:144-177 | for widths divisible by 4 and even heights: luma (r,c) is source byte 2wr+2c |
| PixelConversion.ChromaIsRight | examples/host_camera_server.cc:162-174 | the two chroma planes hold the V and U bytes of the even-indexed rows in order, swapped exactly by flipuv |
| PixelConversion.LumaRightIffWidthMultipleOfFour | examples/host_camera_server.cc:152-160 | among even widths the luma plane is right for every picture exactly when the width is a multiple of four |
| PixelWrites.StoresAreConverted | examples/host_camera_server.cc:144-177 | the stores that the loops are proved to make, one after the other on any buffer, give the converted picture |
| PixelWrites.WrittenExactlyOnce | examples/host_camera_server.cc:151-177 | for widths divisible by 4 those stores go exactly once to each of the 3wh/2 output bytes and to no other |
| FrameCopy.CropRow | aic-emu/CmdHandler.cc:624-636 | row i of the crop is the front of row i of the frame |
| FrameCopy.CopiedRow | aic-emu/GfxHandler.cc:394-401 | after Copy row i of the surface is row i of the picture |
| FrameCopy.BetweenRowsKept | aic-emu/GfxHandler.cc:394-401 | bytes between the rows keep their values |
| FrameCopy.RowsKeptIffPitchCoversRow | aic-emu/GfxHandler.cc:378-401 | every row survives for every picture exactly when the pitch covers a row or there is one row |
| FrameCopy.AdjustedExactly | aic-emu/GfxHandler.cc:226-244 | the surfaces accepted are those of non-zero width, height and format, with the size the wrapped product gives |
| FrameCopy.WritesInsideIffProductReaches | aic-emu/GfxHandler.cc:226-244 | for every accepted surface: every byte that Copy writes is inside totalSize exactly when pitch x height x 4, wrapped to 32 bits, reaches the end of the last row, or rows have no bytes |
| FrameCopy.WritesInsideTotalSize | aic-emu/GfxHandler.cc:226-244 | so with a pitch that covers the row and a product below 2^32 |
| FrameCopy.WrappedProductEscapes | aic-emu/GfxHandler.cc:241-241 | and not with a product that wraps to less |
| FrameCopy.TallEscapes | aic-emu/GfxHandler.cc:241-241 | such as 1024 by 262145 pixels at a pitch of 4096, asked for with 16384 bytes |
| FrameCopy.Copy | aic-emu/GfxHandler.cc:365-405 | the in-place loop of two cursors writes exactly the copied rows; nothing is written if the mapping fails |
| FrameCopy.InputStream.Read | aic-emu/CmdHandler.cc:633-640 | reads the next bytes or, short of them, sets the failure bits |
| FrameCopy.GetOneFrame | aic-emu/CmdHandler.cc:583-646 | the frame at the stream position, cropped to the surface, and the stream left at the next frame; refused when the content is smaller than the surface |
| FrameCopy.ReadRow | aic-emu/CmdHandler.cc:631-636 | one row of content, its front into the picture |
| FrameCopy.ReadRows | aic-emu/CmdHandler.cc:624-640 | the row loops of GetOneFrame |
| FrameCopy.SkipRows | aic-emu/CmdHandler.cc:638-640 | reads the rows below the crop |
| FrameCopy.DisplayFrame | aic-emu/CmdHandler.cc:223-232 | one display request puts the next picture on the surface row by row |
| FrameCopy.DisplayRun | aic-emu/CmdHandler.cc:217-232 | over a run the k-th displayed surface shows the crop of the k-th content frame and the file position is then k+1 whole frames |
| GpsTransfer.Transfer | source/virtual_gps_receiver.cc:143-163 | for every sequence of kernel answers: ends, moves no more than asked, complete exactly when all bytes moved, fewer retries than attempts |
| GpsTransfer.CompleteIffSmooth | source/virtual_gps_receiver.cc:143-162 | a transfer is complete exactly when the kernel moves all bytes before any error, close or hundredth interrupt of the whole call |
| GpsTransfer.Socket.Call | source/virtual_gps_receiver.cc:144-146 | the inner retry loop: one budget shared by the whole call, never below zero |
| GpsTransfer.Socket.Write | source/virtual_gps_receiver.cc:134-164 | sends exactly the bytes moved, in order, on a socket with any history; a positive result is all of them |
| GpsTransfer.Socket.Read | source/virtual_gps_receiver.cc:166-197 | receives the next bytes in order into the front of the buffer, as many as the kernel moves, on a socket with any history; a positive result fills it |
| GpsSentence.NestedTruncationsAreOne | examples/virtual_gps_receiver_sample.cc:202-228 | over reals the nested truncations equal one division of floor(600000|v|); minutes below 60, fraction below 10000 |
| GpsSentence.EncodedAngleIsClose | examples/virtual_gps_receiver_sample.cc:208-213 | the printed angle is at most |v| and within 1/600000 degree of it |
| GpsSentence.ReencodeIffNotNegativeZero | examples/virtual_gps_receiver_sample.cc:203-213 | encoding a printed angle again gives it back exactly unless it is a negative angle printed as zero |
| GpsSentence.AngleTextDecodes | examples/virtual_gps_receiver_sample.cc:211-213 | the printed field gives degrees, minutes and fraction back for any number of degree digits |
| GpsSentence.TimeOfDayIsSecondsOfDay | examples/virtual_gps_receiver_sample.cc:192-196 | hours, minutes and seconds are in range and together the second of the day |
| GpsSentence.AcceptedExactly | examples/virtual_gps_receiver_sample.cc:149-166 | accepted are exactly two or more numbers whose satellite count, if given, is whole and 1 to 12 |
| GpsSentence.Sentence | examples/virtual_gps_receiver_sample.cc:199-241 | the pieces appended to the buffer are the comma-separated fields of the sentence |
| GpsSentence.SentenceReadsBack | examples/virtual_gps_receiver_sample.cc:199-241 | splitting the sentence gives back the time field, both angles with hemisphere and the satellite count |
| YmlScalars.ReadDec | aic-emu/YmlParser.cc:102-105 | %d and %ld text reads back as any integer type whose range has the value, and throws otherwise |
| YmlScalars.ReadHex | source/hwc_profile_log.cc:294-294 | 0x%X text reads back |
| YmlScalars.IntArrayToString | source/hwc_profile_log.cc:43-53 | the loop builds the bracketed, comma-separated text of the first `length` elements |
| YmlScalars.GetSequence | aic-emu/YmlParser.cc:149-164 | fills the front of the array with the sequence and leaves the rest, or refuses, or throws |
| YmlScalars.ArrayReadsBack | aic-emu/YmlParser.cc:149-164 | array text round trip: any non-empty array reads back, all elements in place, exactly when each is in range of the element type |
| YmlTree.BuildPrint | source/hwc_profile_log.cc:211-224 | building the tree from lines printed at any level gives the tree back |
| YmlTree.PrintExtends | source/hwc_profile_log.cc:252-265 | lines one level deeper extend the last mapping |
| LogDecode.UnsignedAt | aic-emu/YmlParser.cc:102-105 | an unsigned field printed with %d comes back exactly when it is below 2^31 |
| LogRoundTrip.NativeBack | source/hwc_profile_log.cc:388-407 | native_handle_t comes back |
| LogRoundTrip.PlanesBack | source/hwc_profile_log.cc:347-356 | the five plane arrays come back exactly when their unsigned elements are below 2^31 |
| LogRoundTrip.ExtentBack | source/hwc_profile_log.cc:358-364 | width, height, format, tiling mode and use flags come back exactly when below 2^31 |
| LogRoundTrip.UsageBack | source/hwc_profile_log.cc:366-372 | the usage fields come back exactly when the %d ones are below 2^31; any magic number does |
| LogRoundTrip.FlagsBack | source/hwc_profile_log.cc:373-378 | the flags come back exactly when below 2^31 |
| LogRoundTrip.CodingBack | source/hwc_profile_log.cc:379-383 | the coding fields come back exactly when below 2^31 |
| LogRoundTrip.GrallocBack | aic-emu/YmlParser.cc:166-220 | log round trip of cros_gralloc_handle, native handle nested inside: the value comes back exactly when its printed fields are small, else decode throws |
| LogEvents.EventBack | aic-emu/YmlParser.cc:97-108 | log round trip of display_event_t |
| LogEvents.BufferInfoBack | aic-emu/YmlParser.cc:140-147 | remote_handle, printed with %ld, comes back exactly when below 2^63 |
| LogEvents.InfoBack | aic-emu/YmlParser.cc:110-128 | log round trip of display_info_t, floats kept as text |
| LogEvents.PortBack | aic-emu/YmlParser.cc:130-138 | log round trip of display_port_t |
| LogEvents.AlphaBack | aic-emu/YmlParser.cc:288-297 | log round trip of set_video_alpha_t |
| LogEvents.ControlBack | aic-emu/YmlParser.cc:321-341 | display_control_t and its viewport would come back if looked up where they are logged |
| LogDocuments.EventNameBack | aic-emu/YmlParser.cc:22-53 | an event name gives its code back for every logged type except SET_VIDEO_ALPHA_REQ, which like unknown events gives 0 |
| LogSpelling.SpellingsAgree | source/hwc_profile_log.cc:28-41 | string by string, what the logger prints for an event and its direction is what the comparisons of the emulator recognize |
| LogSpelling.PrintedNameBack | aic-emu/YmlParser.cc:22-53 | the spelled name of an event gives its code back, but for SET_VIDEO_ALPHA_REQ and unknown events |
| LogDocuments.MetaBack | aic-emu/YmlParser.cc:55-95 | all metadata comes back, the direction flipped |
| LogDocuments.BufferBack | aic-emu/YmlParser.cc:266-286 | a logged buffer_info_event_t comes back, or a zeroed one if its buffer_info_t was never logged |
| LogDocuments.InfoEventBack | aic-emu/YmlParser.cc:222-242 | decoding a logged display_info_event_t throws exactly when a field is out of range |
| LogDocuments.PortEventBack | aic-emu/YmlParser.cc:244-264 | decoding a logged display_port_event_t throws exactly when a field is out of range |
| LogDocuments.DocumentBack | aic-emu/CmdHandler.cc:425-543 | every document the logger writes, of any type, decodes to its code, the flipped direction and its structs exactly when the fields looked at are in range, else to the exception |
| LogDocuments.ControlsAreLost | aic-emu/CmdHandler.cc:503-514 | controls logged at level 2 are never found: the document decodes as if it had none |
| LogFile.FileReadsBack | aic-emu/CmdHandler.cc:546-558 | loading a log file gives the trees of its documents in order |
| ProfileLog.ProfileLogger.constructor | source/hwc_profile_log.h:89-92 | a new logger has an empty file, number 0 and zero counts |
| ProfileLog.ProfileLogger.WriteYmlLog | source/hwc_profile_log.h:38-46 | one line at its level |
| ProfileLog.ProfileLogger.AddDisplayEventStruct | source/hwc_profile_log.cc:283-300 | appends the lines of the tree of display_event_t at the level given, nothing when disabled |
| ProfileLog.ProfileLogger.AddBufferInfoStruct | source/hwc_profile_log.cc:428-444 | the same for buffer_info_t |
| ProfileLog.ProfileLogger.AddNativeHandleStruct | source/hwc_profile_log.cc:388-407 | the same for native_handle_t |
| ProfileLog.ProfileLogger.AddGrallocHandleStruct | source/hwc_profile_log.cc:330-386 | the same for cros_gralloc_handle with the native handle nested |
| ProfileLog.ProfileLogger.AddDisplayControlStruct | source/hwc_profile_log.cc:542-569 | the same for display_control_t with its viewport nested |
| ProfileLog.ProfileLogger.AddDisplayInfoStruct | source/hwc_profile_log.cc:302-328 | the same for display_info_t |
| ProfileLog.ProfileLogger.AddDisplayPortStruct | source/hwc_profile_log.cc:409-426 | the same for display_port_t |
| ProfileLog.ProfileLogger.AddSetVideoAlphaStruct | source/hwc_profile_log.cc:487-507 | the same for set_video_alpha_t |
| ProfileLog.ProfileLogger.AddBufferInfoEventStruct | source/hwc_profile_log.cc:252-265 | appends the body of a display reply |
| ProfileLog.ProfileLogger.AddDisplayInfoEventStruct | source/hwc_profile_log.cc:237-250 | appends the body of an info reply or resolution change |
| ProfileLog.ProfileLogger.AddDisplayPortEventStruct | source/hwc_profile_log.cc:267-281 | appends the body of a port reply |
| ProfileLog.ProfileLogger.AddVideoAlphaEventStruct | source/hwc_profile_log.cc:509-525 | appends the body of an alpha request |
| ProfileLog.ProfileLogger.UpdateEventCount | source/hwc_profile_log.cc:446-470 | raises the counter of the event; DISPPORT_REQ raises the DISPINFO one |
| ProfileLog.ProfileLogger.CheckProtocolBufferInfoEvent | source/hwc_profile_log.cc:171-189 | opens a buffer_info_event_t for the three buffer events and gives the next level |
| ProfileLog.ProfileLogger.LogGenericEventInfo | source/hwc_profile_log.cc:192-235 | the file grows by exactly the rows of a document with the current number and counts and the header as body; the number by one |
| ProfileLog.ProfileLogger.LogChangeResolutionEvent | source/hwc_profile_log.cc:472-485 | one whole document of a resolution change |
| ProfileLog.ProfileLogger.LogSetAlphaEvent | source/hwc_profile_log.cc:527-540 | one whole document of an alpha request |
| HwcReceiver.VirtualHwcReceiver.constructor | source/hwc_vhal_impl.h:48-59 | no handles, an empty log |
| HwcReceiver.VirtualHwcReceiver.CreateBuffer | source/hwc_vhal_impl.h:410-456 | the whole new state for every outcome of the reads: kept handle, calls, and the document in the file |
| HwcReceiver.VirtualHwcReceiver.RemoveBuffer | source/hwc_vhal_impl.h:458-483 | removes, frees and forgets a known handle; logs in any case |
| HwcReceiver.VirtualHwcReceiver.DisplayRequest | source/hwc_vhal_impl.h:485-529 | shows a known handle, with controls exactly when the size says so, and logs the reply if it goes out |
| HwcReceiver.VirtualHwcReceiver.UpdateDispConfig | source/hwc_vhal_impl.h:355-382 | logs the info reply |
| HwcReceiver.VirtualHwcReceiver.UpdateDispPort | source/hwc_vhal_impl.h:384-399 | logs the port reply |
| HwcReceiver.VirtualHwcReceiver.LogHeader | source/hwc_vhal_impl.h:286-290 | counts the event and opens its document |
| HwcReceiver.VirtualHwcReceiver.HandleMessage | source/hwc_vhal_impl.h:286-323 | one message: the state the functions say, the file exactly the documents so far, and whether the worker goes on |
| HwcReceiver.VirtualHwcReceiver.Start | source/hwc_vhal_impl.h:155-168 | starts once |
| HwcReceiver.VirtualHwcReceiver.Stop | source/hwc_vhal_impl.h:169-193 | removes and frees every handle left, in key order, and empties the map |
| FrameLifecycle.CallsInOrder | source/hwc_vhal_impl.h:155-529 | in every session of start, messages, lost connections and stop no local handle is shown or removed before its creation or after its removal, and none is freed twice |
| FrameLifecycle.AllRemovedIffFresh | source/hwc_vhal_impl.h:169-193 | after stop the handles never removed are exactly those of creates under a taken key, so all are removed exactly when no create clashed |
| FrameLifecycle.LifeRelease | source/hwc_vhal_impl.h:181-188 | releasing the map ends the life of exactly the handles in it |
| DisplayEmulator.CmdHandler.constructor | aic-emu/CmdHandler.cc:29-56 | no buffer objects, nothing sent, the first document next |
| DisplayEmulator.CmdHandler.AllocateBo | aic-emu/GfxHandler.cc:258-318 | inserts the new buffer object unless the key is taken; fails with the ioctls |
| DisplayEmulator.CmdHandler.ClearBo | aic-emu/GfxHandler.cc:320-348 | erases a known buffer object exactly when GEM_CLOSE succeeds |
| DisplayEmulator.CmdHandler.ExchangeDisplayRequest | aic-emu/CmdHandler.cc:196-260 | checks controls, buffer object and frame before anything is sent |
| DisplayEmulator.CmdHandler.DataExchange | aic-emu/CmdHandler.cc:263-397 | what is sent, the buffer objects and the status for every decoded document |
| DisplayEmulator.CmdHandler.ProcessNextEntry | aic-emu/CmdHandler.cc:400-422 | one document: decoded and exchanged, the exception caught, the next node advanced in any case |
| DisplayEmulator.CmdHandler.RunToEnd | aic-emu/AicEmu.cc:156-163 | the main loop stops at the first status other than success |
| DisplayEmulator.PlayConcat | aic-emu/AicEmu.cc:156-163 | replaying two parts is replaying the first and, if it got through, the second |
| DisplayEmulator.WalkMeetsEachOnce | aic-emu/GfxHandler.cc:43-50 | a walk over the map meets every buffer object exactly once |
| DisplayEmulator.CloseAll | aic-emu/GfxHandler.cc:41-50 | the destructor closes every buffer object once and empties the map |
| Replay.DocsOfMessage | source/hwc_vhal_impl.h:286-323 | each message leaves one document, and one more for its reply |
| Replay.MessageReplayed | aic-emu/CmdHandler.cc:263-397 | for any message, whatever handles the two ends hold: what replaying its documents sends, and whether the replay goes on |
| Replay.ReplyParsed | aic-emu/CmdHandler.cc:352-387 | replies are read over on replay, except port replies, which end it |
| Recording.StartedRecords | source/hwc_vhal_impl.h:155-330 | a started worker whose info requests are all accepted lives on and logs its messages |
| ReplayFidelity.FileReplayed | aic-emu/CmdHandler.cc:400-422 | for every recording, sessions started, ended and stopped, resolution changes and alpha requests among the messages, written to a file and replayed: the emulator sends exactly the echo of each message up to the first that ends the replay, and reaches the end of the file exactly when none does |
| ReplayFidelity.ClientParsed | aic-emu/CmdHandler.cc:352-387 | a resolution change is read over; an alpha request ends the replay |
| ReplayFidelity.KeysFollow | aic-emu/GfxHandler.cc:304-346 | while the replay goes on, the emulator holds a buffer object for exactly the handles the receiver held when it logged and those that stops have freed and nothing since has made or removed |
| ReplayFidelity.FaithfulRunReplayed | aic-emu/CmdHandler.cc:263-350 | replay fidelity: a run of info requests, fresh creates, live removes and displays with in-range fields is sent again message by message, changed only in render node, descriptors and the renamed tiled format, to the end of the file |
| ReplayAgain.KeptTwice | source/hwc_vhal_impl.h:438-445 | receiving a kept handle with any descriptors puts these in place of the old and changes nothing else |
| ReplayAgain.ArrivesAgain | source/hwc_vhal_impl.h:301-318 | what the emulator sends for a faithful message, whatever follows it, is read as that message with the descriptors the kernel hands out |
| ReplayAgain.QueueArrivesAgain | source/hwc_vhal_impl.h:280-323 | all that a faithful run makes the emulator send is read, message by message, as the run come again |
| ReplayAgain.ReplayOfReplay | aic-emu/CmdHandler.cc:263-422 | from file to file: a faithful run is recorded and replayed, what was sent reads whole as as many messages, and these, recorded by a second receiver and replayed from its file, make the emulator send the same units but for descriptor numbers and end with the same handles |
| TwoEnded.ReadWholeIffMatched | source/hwc_vhal_impl.h:301-318 | whatever the entry, what is sent for it is read to its end, no more and no less, exactly when the type and size in the header match what follows |
| TwoEnded.RecordingLogs | source/hwc_vhal_impl.h:155-529 | every document of the log of any recording has the header type of its name, and a logged handle or info only with the size that reads it |
| TwoEnded.NamedIffInfoLogged | aic-emu/CmdHandler.cc:263-350 | of the logged documents that send anything, exactly those whose info was logged send a header that matches |
| TwoEnded.KeysAfterMessage | source/hwc_vhal_impl.h:410-483 | the receiver keys after any message |
| TwoEnded.EntryKeys | aic-emu/GfxHandler.cc:310-345 | what an entry with a matching header sends does to the keys what it does to the emulator, but for a failed GEM_CLOSE |
| TwoEnded.BothEndsAgreeIff | source/hwc_vhal_impl.h:410-513 | two-ended agreement, for documents of any log in any order: in every reachable state the queued messages read whole and applied to the receiver keys give the emulator keys, a failed GEM_CLOSE leaving one more, exactly when nothing was sent for a document whose info was not logged |
| TwoEnded.BothEndsAgree | source/hwc_vhal_impl.h:410-513 | so on the log of any recording, if its removals and displays have their info, both ends agree in every reachable state |
| TwoEnded.FailedReadDisagrees | source/hwc_vhal_impl.h:458-483 | one failed read of a removal is enough: its document makes the two ends part |
| TwoEnded.WrongSizeGarbles | source/hwc_vhal_impl.h:305-310 | a create of the wrong size leaves its body to be read as a header |
| LogAtomicity.LogIsAtomic | source/hwc_profile_log.cc:137-235 | in every interleaving of the worker and any number of clients, line by line, the file starts with whole documents numbered 0, 1, 2, every reply right after its request; while nobody holds the mutex it is exactly these and loads as their trees |
| LogLines.DocumentRows | source/hwc_profile_log.cc:192-235 | the opening, the seven counts as they were printed and the body together are the rows of one document |
| LogAtomicity.PrintedCounts | source/hwc_profile_log.cc:216-224 | the printed create, remove and display counts are the documents of that kind so far, plus one exactly if the worker had counted such an event and waited for the mutex; exact in the worker's own documents; the port count stays 0 |
| LogAtomicity.CountRunsAhead | source/hwc_vhal_impl.h:286-290 | the plus one happens: a resolution change can print a create that is in no document yet |

## Left out

- yaml-cpp itself: integers are read as versions from 0.6.3 on do, an unsigned type refusing a minus sign; older versions wrap it, and then every 32-bit value would come back.
- LogDecode.AsArray: a sequence longer than the array it is read into is outside the model; the source writes past the array. No document of the logger has one.
- LogDocuments.MetaBack: metadata that lacks an entry, which the source leaves unset and the model treats as unreadable; the logger always writes all of them.
- The comment lines `Initialize` writes before the first document, `SetResolution`, and a log file that cannot be opened or locked.
- Lines of a log are written whole; the text inside a line is not cut.
- Exact float text: dpi and fps are kept as the text "%f" gives, and the "%.1g" altitude text is a parameter.
- The frame handler is present and allocation of handles succeeds; short reads of a struct are not modelled, a read gives the struct or fails.
- A received descriptor list is four numbers of which the announced ones are used; what the kernel leaves behind them is arbitrary.
- TwoEnded.BothEndsAgree: one entry of the emulator and one message of the receiver are single steps, since the receiver blocks until it has the whole message; states in the middle of an entry are not described.
- The emulator's reads of ACK bodies, whose contents are never looked at and whose sizes do not match the sender's for DISPINFO_ACK, and its frame-rate waiting.
- ReplayFidelity.HappeningReplayed: assumes that no read the recorder makes and no ioctl or frame of the emulator fails, since the log does not say which would.
- FrameCopy.DisplayRun: stays within the content; the wrap-around at the end of the file is in `GetOneFrame` only as far as clearing the failure bits and seeking to the start.
- FrameCopy.GetOneFrame: when the content runs short in the middle of a frame, only the failure bits are described, not the picture; width x height x 4, the size of the picture itself, is taken below 2^32, where the source's product would wrap and its rows would not fit the picture.
- FrameCopy.Copy: a surface whose wrapped size is too small is left out of the method, since its writes outside have no meaning; `WritesInsideIffProductReaches` says which. Mapping either succeeds or reports that it does not; an mmap call that fails after its ioctl succeeded goes unreported in the source, which then copies to a null address.
- DisplayEmulator.CmdHandler.DataExchange: writes to and reads from the socket succeed; the source ends the replay with the status of one that fails.
- TouchReceiver.VirtualInputReceiver.SendEvent: the write succeeds. A failed one loses its event and reopens the device, whose consumer starts anew.
- LogDocuments.EventNameBack: names are enumeration values there; `LogSpelling` compares the strings. The keys are one constant for the literal that both sides use, so that they are spelled alike is read off the source, not proved.
- ReplayFidelity.FileReplayed: a client's document is logged between two messages with the counts as they then stand; interleaved with the worker's counting its counts can be one ahead (`PrintedCounts`), which the replay does not look at. A setMode or setVideoAlpha whose send fails logs nothing and is no part of a recording.
- LogAtomicity.LogIsAtomic: what precedes the counts of a document is one step, since nothing that another thread changes is read for it; a file cut off in the middle of a document is only said to start with the whole ones.
- PixelConversion.PlanesAreRight: widths divisible by 4 and even heights; for other even widths the loops' result and `LumaRightIffWidthMultipleOfFour` say what happens.
- PixelConversion.Yuyv422ToYuv420sp: odd widths and heights, for which the planes have no whole size.
- ChannelThreads.FramedDelivery: a step is one ::recv, one look at the buffer's place or one callback; a move in the middle of a ::recv or a callback, and two resizes at the same instant, are not described. A thread past a stale pointer is `Broken` and nothing is said of the memory it touches.
- The talkers' poll, connect, retry and reconnect, and `SendDataPacket`'s partial sends: a send goes out whole.
- TouchTheorems.TrackingIdsDistinct: ids are unbounded; `CountersBounded` says when 32 bits are enough.
- TouchText.ProcessOneCommand: scanf numbers are unbounded integers, since out-of-range text has no defined result in C.
- Joystick commands and `onKeyCode`: the same splitter with one scanned event per line.
- strtod tokenising of the GPS arguments; the checks start from the numbers. Angles are exact reals, casts to int do not overflow.
- Audio, sensor and camera sinks, the Unix and vsock clients and command-line programs: forwarding loops without state worth a proof.
