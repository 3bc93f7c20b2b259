# MFiWrapper: a Dafny model of the controller pipeline

MFiWrapper turns HID and Bluetooth packets into game-controller state. This project models the parts of it that
keep state over an unbounded run, and proves what they keep, each on its own and joined together.

* **Wire protocol and framing** (`Bytes`, `Protocol`, `Framing`, `Connection`). Backend and frontend exchange
  length-prefixed packets over a socket whose reads may return any number of bytes. The reassembler compares its
  position with a Size field that may not have arrived completely. For frames of 4 to 276 bytes it is proved to
  dispatch only whole frames, in order, under every way of splitting the stream, if and only if no frame is 256 or
  257 bytes long; the four sizes of the protocol are in that domain. `Connection` is the object itself: the reader
  fills and clears its packet buffer in place.
* **Controller registry** (`Registry`, `RegistrySystem`, `Tracking`, `Wire`, `Agents`). The backend allocates
  handles and keeps a device table with null entries; the frontend keeps a list of controllers. Over all runs of
  attach, detach, report, pause, index and delivery steps the frontend's list, once it has taken in what is under
  way, is the live devices in order of handle, and the elements of each show what its device last reported. The
  frontend never raises an exception for fewer than 2^32 attaches, and the indices told to devices are those set on
  their controllers for fewer than 2^32 - 1; both bounds are exact. `Wire` puts the byte streams and the reassembler
  under the same two agents and proves that every byte-level run refines a message-level one, so all of this holds
  end to end. `Agents` holds the two agents as objects that write to a `Connection`, the frontend with its element
  objects.
* **Wii Remote** (`ClassicReport`, `RemoteState`, `Wiimote`, `WiimoteRuns`, `WiimoteObject`). The handshake loop is
  proved equal to a table of six phases: the phase reached, the commands sent, the LEDs stored and the value
  returned. It returns exactly from states 0 to 6, within three turns, and returns 1 exactly through state 6. Over
  every run of input reports and index requests the phase is the one the history determines, the report type last
  asked for is the one the decoder expects, the LEDs stored, sent and requested agree, and every report is answered
  with the state that the history calls for, field by field from the set of named buttons held.
* **Stick calibration and gamepads** (`Calibration`, `Gamepads`, `GamepadReports`, `GamepadInputs`,
  `GamepadObjects`). The axis function is bounded, monotone, zero exactly on the dead zone and odd for symmetric
  tables. A calibration that widens with each sample has a closed form, never takes the out-of-range branches, and
  only ever damps the output of a given raw value. The three plain drivers send one pause packet per
  released-to-pressed transition, and the light they last sent is that of the index last set, exactly for the
  indices that have one. What each accepts and what it makes of it is stated over raw reports, by the names of the
  controls, with a round trip for every position of the pad.
* **Single precision** (`Float`, `AxisFloat`, `StatePacket`). Values are kept as reals and sent as words near them.
  The axis function with every operation rounded to the nearest single-precision value, as the drivers compute it,
  is proved to be within 2^-24 of the one over the reals, on the same side of zero.
* **HCI filter** (`HciFilter`, `HciPromise`, `HciRuns`, `HciObject`). Packets are patched and remembered as they
  stream through hooked reads. It is proved exactly which splittings of an event or of ACL data the filter can cope
  with, and that any other packet is safe for every content only when it is read whole. For the splittings it can
  cope with, the caller sees the device's bytes with at most byte 12 of single-response Peripheral inquiries
  patched. A PIN reply is altered exactly when the latest whole name event for its address holds a Wii Remote's
  name, and then only in its PIN. The documented patch of inquiry events is kept exactly for those with a single
  response.
* **Element updates** (`Elements`, `ElementObject`). State packets are applied incrementally with an early return;
  after any run every element shows its own fields of the last packet alone, and each change handler has fired
  exactly for the values that differed from the one before.
* **End to end** (`Pipeline`). A device's state goes through its driver, the backend, the bytes, the reassembler and
  the frontend to the elements, and a pause to its handler; an index goes the other way to the device's lights. With
  everything read, each element shows, up to rounding, what the device's last raw report says of the control of its
  name, every press has called the handler once, and the lights show the index last set.

Each imperative core appears twice: as a class whose methods change fields, arrays and sequences in place, and as the
functions those methods are proved to compute. The properties over whole runs are lemmas about the functions.

## Conventions and assumptions

* The host is little-endian; `uint32_t`, `int32_t` and `uint8_t` are modelled with their ranges, and handle and
  player-index conversions wrap as in C.
* A driver's values are reals, and on the wire a float is its 32-bit pattern, with `Floats.FloatValue` the value of
  a finite one. `Floats.Near` says how the two may differ: by at most 2^-24, never in sign, and not at all at -1, 0
  and 1. Below the dead zone a driver rounds twice, so the bound is absolute and not relative. Infinities and NaN do
  not occur among these values and are not modelled.
* A socket read returns any positive number of the bytes that have arrived, or nothing when none have; a socket
  write is taken whole. `Stream.arrived` is how much the operating system has delivered.
* HID reports live in the 2048-byte buffer of the HID manager. The flag bits of `wiimote_t.state` are a set of
  flags.
* The results of the Bluetooth device's own writes are a parameter of the write hook.
* A remembered device name ends at its first zero byte or at the end of the bytes received.
* `RegistrySystem.Agents` keeps a log of what was reported, wanted, announced and pressed. The results do not rest
  on it: they are stated over the steps of a run, and the logs are proved to be their history.
* In `RegistrySystem` a device is named by its address, which a later device may reuse.
* In `Pipeline` a driver is joined to the agents by what passes between them: the SetPlayerIndex calls its device
  received, the pauses it sent, and words that carry its states, which always exist (`Pipeline.AlwaysCarried`).
* An access outside the buffers of the HCI filter ends a run: `None` in the functions, `fault` in the methods.

## Where the code has an edge

* `Framing.ExactFramingDomain`: a 256- or 257-byte frame is dispatched after its first byte (`src/common.cpp:117`),
  because the other three bytes of Size are still zero.
* `RegistrySystem.ExactHandleDomain`: the attach number 2^32 is given handle 0, which the frontend does not look up,
  so its Disconnect removes index -1 (`src/frontend/frontend.mm:154`).
* `Tracking.ExactIndexDomain`: the attach number 2^32 - 1 is given the handle that stands for local controllers, so
  an index set on it is never sent (`src/frontend/frontend.mm:133`).
* `Wiimotes.HandshakeTerminates`: the `default` arm of the switch only leaves the switch, so the loop spins in
  states above 6 (`src/backend/hidpad/wiimote.cpp:325`); every reachable state is 1, 4 or 5.
* `HciFilters.ReadTransparency`: when byte 12 of an inquiry event came with an earlier read, the patch is written in
  front of the caller's buffer (`btserverfilter/src/BTServerFilter.cpp:60`); when a first read does not hold the
  header, the length is read past the end of the context (`btserverfilter/src/BTServerFilter.cpp:130`).
* `HciFilters.UnfollowedExactly`: packets of other types count as complete after every read
  (`btserverfilter/src/BTServerFilter.cpp:127`), so a second read of one that begins like an event is followed, kept
  or patched as an event; `HciFilters.SynchronousPatched` is one that the caller sees changed.
* `HciFilters.ReadBeyond`: when one read brings two packets, the second is not kept, and is filtered as if it were
  part of the first (`btserverfilter/src/BTServerFilter.cpp:138`); `HciFilters.FirstAloneExactly` says when that
  makes no difference.
* `Gamepads.ExactLightDomain`: an index without a light, such as -1, leaves the Wii U Pro showing the player before,
  and the DualShock 4 with whatever colour another DualShock 4 has left in the static report buffer
  (`src/backend/hidpad/HIDPad_DualShock4.cpp:125`). Both keep the index in eight bits, so 256 counts as 0; the
  DualShock 3 does not.
* `HciObjects.HciFilter.WriteByte`: its bound check admits an offset one past the context
  (`btserverfilter/src/BTServerFilter.cpp:56`); its one caller passes 12 with at least 16 bytes there.
* `HciPromises.PromiseKeptExactly`: the repository's README promises the keyboard patch for every inquiry event that
  defines a Peripheral; the code patches only events with a single response
  (`btserverfilter/src/BTServerFilter.cpp:235`), and the model follows the code.
  `HciPromises.TwoPeripheralsUnpatched` is an event that keeps its Peripherals as they were.

## Model

| member | source | states |
|---|---|---|
| Framing.ExactFramingDomain | src/common.cpp:113-125 | delivery is faithful under every chunking if and only if no frame is 256 or 257 bytes long |
| Framing.FramingRoundTrip | src/common.cpp:49-125 | the messages handled are a prefix of those sent; when all bytes are read they are all of them and the parser is reset |
| Wire.WireRefinesSystem | src/common.cpp:49-125 | every byte-level run has a message-level run with the same attaches, outcome and agents |
| Wire.WireAgreement | src/frontend/frontend.mm:137-162 | over byte-level runs nothing raises, and whenever all bytes are read the list is the live devices |
| Wire.WireElements | src/frontend/frontend.mm:164-171 | over byte-level runs, whenever the frontend has read all its bytes, the controller of every live device is as its attach announced it, and its elements show the last of its report steps and have fired for exactly its changes |
| Wire.WireIndices | src/backend/backend.cpp:44-68 | over byte-level runs with fewer than 2^32 - 1 attaches, whenever the backend has read all its bytes every live device was last told the index of the last SetIndex step for it |
| RegistrySystem.RegistryAgreement | src/backend/backend.cpp:90-125 | in every reachable state nothing has raised, every message under way finds its controller, and draining them gives the live devices and their last reports |
| RegistrySystem.ExactHandleDomain | src/frontend/frontend.mm:150-162 | no run with at most n attaches raises if and only if n is below 2^32 |
| Tracking.IndexAgreement | src/frontend/frontend.mm:128-148 | with fewer than 2^32 - 1 attaches, once no message about it is under way, a live device has last been told the index of the last SetIndex step for its controller, or -1 |
| Tracking.ExactIndexDomain | src/frontend/frontend.mm:128-135 | the two ends agree on every settled index in all runs with at most n attaches if and only if n is below 2^32 - 1 |
| Tracking.ElementAgreement | src/frontend/frontend.mm:164-171 | with nothing under way every live device has its controller in the list, as its attach announced it, whose elements show the last of its report steps and have fired for exactly its changes |
| Tracking.PauseAgreement | src/frontend/frontend.mm:173-182 | with nothing under way the paused handlers have been called for the pause steps taken, in the same order |
| Wire.WirePauses | src/frontend/frontend.mm:173-182 | over byte-level runs, whenever the frontend has read all its bytes, the paused handlers have been called for the pause steps taken, in the same order |
| Pipeline.RemoteShowsIndex | src/backend/hidpad/HIDPad_WiiMote.cpp:35-47 | from the application through both agents to the Wii Remote: index held and LEDs last sent are those last set |
| Pipeline.GamepadShowsIndex | src/backend/hidpad/HIDPad_DualShock4.cpp:33-43 | from the application to the other drivers: once a report has arrived the light last sent is that of the index last set, if it has one |
| Pipeline.StateReachesElements | src/backend/backend.cpp:115-119 | from any device to the application: with all bytes read, each element of its controller shows the field of its name in the last state sent, within 2^-24 and on the same side of zero, and the sides of each pad differ by its axis |
| Pipeline.RemoteReachesElements | src/backend/hidpad/HIDPad_WiiMote.cpp:85-138 | from the raw reports of a Wii Remote to the elements: each shows, by name, what its whole history calls for, within the same bound |
| Pipeline.GamepadReachesElements | src/backend/hidpad/HIDPad_DualShock4.cpp:39-106 | from the raw reports of the other drivers to the elements: each shows, by name, what the last report that was not malformed says of its control, within the same bound |
| Pipeline.PressesReachHandler | src/backend/hidpad/HIDPad_DualShock4.cpp:101-103 | from the raw reports to the application: the paused handler is called once for every press of the pause button among those that were not malformed |
| Pipeline.RemoteWordsCarry | src/backend/hidpad/HIDPad_WiiMote.cpp:85-138 | the words that the driver of a Wii Remote computes in single precision carry its state, after any run |
| AxisFloats.FloatAxisNear | src/backend/hidpad/HIDPad.cpp:34-60 | the axis function with every operation rounded is within 2^-24 of the one over the reals, on the same side of zero, and exact at the limits and in the dead zone |
| Wiimotes.HandshakeFollowsTable | src/backend/hidpad/wiimote.cpp:157-331 | from every phase and event: next phase, commands sent, LEDs, result and iterations are those of the table |
| Wiimotes.HandshakeTerminates | src/backend/hidpad/wiimote.cpp:161-330 | the loop returns exactly from states 0 to 6, in at most three turns |
| Wiimotes.ReturnsOneThroughSix | src/backend/hidpad/wiimote.cpp:157-331 | from every device in states 0 to 6: the result is 1 exactly if the loop comes to state 6 and 0 otherwise, and 1 leaves a complete handshake with the player's LED |
| WiimoteRuns.DriverConsistent | src/backend/hidpad/HIDPad_WiiMote.cpp:21-138 | over every run: phase from the raw reports, report type as the decoder expects, LEDs stored, sent and requested agree, axes calibrated by their samples, and one state packet per report, field by field from the sets of named buttons held |
| RemoteStates.ClassicStateByName | src/backend/hidpad/HIDPad_WiiMote.cpp:103-137 | the same for the fifteen buttons of the Classic Controller, whose word is complemented |
| RemoteStates.RemoteStateByName | src/backend/hidpad/HIDPad_WiiMote.cpp:85-101 | from the word in a report: each field of the remote's state is membership of its named button in the set held, with left before right and up before down |
| GamepadInputs.HeardAsSaid | src/backend/hidpad/HIDPad_DualShock4.cpp:39-106 | over any run of raw reports, malformed ones included, each driver hears what the reports say of the named controls |
| HciFilters.ReadTransparency | btserverfilter/src/BTServerFilter.cpp:54-155 | events and ACL data: exactly which splittings pass, and that those show the packet with at most byte 12 patched and empty the context; other types: reads that begin like neither pass |
| HciFilters.UnfollowedExactly | btserverfilter/src/BTServerFilter.cpp:122-151 | a way of splitting a packet of another type passes for every content if and only if it is a single read |
| HciFilters.StreamTransparency | btserverfilter/src/BTServerFilter.cpp:105-246 | over a stream the caller sees the device's bytes up to that patch, and what is learnt does not depend on the splitting |
| HciFilters.MidStream | btserverfilter/src/BTServerFilter.cpp:115-152 | between the reads of a packet inside a stream: a fault exactly if byte 12 or the header was out of reach; otherwise the context is the part consumed, patched if it is to be, and learnt is what the packets and that part teach |
| HciFilters.FirstAloneExactly | btserverfilter/src/BTServerFilter.cpp:105-155 | such a read treats its first packet alone, whatever was learnt before, if and only if what follows makes it look like no inquiry, name or address that it is not and does not continue its name |
| HciPromises.KeyboardPromise | README.md:41 | the caller sees every Peripheral that an inquiry event lists as a keyboard if and only if the event has a single response or the device said so itself |
| HciPromises.PromiseKeptExactly | README.md:41 | among events with n responses the promise holds for every content if and only if n is 1 |
| HciRuns.PinFollowsPackets | btserverfilter/src/BTServerFilter.cpp:176-196 | when the reads of a run bring packets split in any way the filter can cope with, it does not fault, and a PIN reply is altered exactly when the latest whole name event among them for its address says a Wii Remote's name, and then only in its PIN, to the address in the first whole answer to Read BD_ADDR |
| HciRuns.PinInsidePacket | btserverfilter/src/BTServerFilter.cpp:176-196 | PIN replies written between the reads of a packet follow the packets before it and what has arrived of it; the run faults exactly if those reads are out of reach |
| HciRuns.WritesConserved | btserverfilter/src/BTServerFilter.cpp:78-103 | with an accepting device exactly as many packets arrive as are written |
| Gamepads.LightFollowsIndex | src/backend/hidpad/HIDPad_Playstation3.cpp:108-128 | over every run of all three drivers the light last sent is the one the history calls for, and once a report has arrived it is that of the index last set, if it has one |
| Gamepads.ExactLightDomain | src/backend/hidpad/HIDPad_DualShock4.cpp:123-139 | the light depends on the index alone, whatever went before, if and only if the driver has a light for it |
| Gamepads.PauseEdges | src/backend/hidpad/HIDPad_DualShock4.cpp:39-106 | pause packets are as many as the released-to-pressed transitions of accepted reports, state packets as many as accepted reports |
| GamepadInputs.RawReportsForwarded | src/backend/hidpad/HIDPad_DualShock4.cpp:39-106 | from raw reports: the pauses sent are the presses the reports say, the states sent are those they show |
| Elements.UpdateIsDirect | src/frontend/MFiWrapper.mm:71-76 | after any run each element shows the last packet, the sides of a pad differing by its axis, and its handlers fired exactly for the changes |
| Calibrations.AdaptedClosedForm | src/backend/hidpad/wiimote.cpp:452-466 | the range is the least and greatest of all samples and the first one's margins, and the dead zone never moves |
| Calibrations.HistoryDampens | src/backend/hidpad/HIDPad_WiiUPro.cpp:99-102 | one raw value at two points of a run gives the same sign and no greater magnitude later |
| ClassicReports.ClassicDecodesPacked | src/backend/hidpad/wiimote.cpp:468-475 | decoding the packed six bytes gives back the four stick values and the buttons without the unused bit |
| Floats.RoundNear | src/backend/hidpad/HIDPad.cpp:48-59 | rounding to single precision keeps the sign, is exact at -1, 0 and 1, and is off by at most half a unit in the last place |
| StatePackets.RoundedCarries | include/protocol.h:62-91 | every state has words that carry it, each named field in its place |
| AxisFloats.FixedNear | src/backend/hidpad/HIDPad_DualShock4.cpp:95-99 | the axis function over the fixed table is within that bound for every byte |
| AxisFloats.AdaptedNear | src/backend/hidpad/HIDPad_WiiUPro.cpp:87-103 | it is within that bound over every range adapted to samples of up to sixteen bits |
| AxisFloats.Ratio | src/backend/hidpad/HIDPad_Playstation3.cpp:60-69 | a rounded quotient, a pressure out of 255 among them, is within half a unit of the exact one |
| Pipeline.AlwaysCarried | src/backend/backend.cpp:115-119 | every run of states has words that carry it, so that the results below exclude none |
| HciPromises.TwoPeripheralsUnpatched | btserverfilter/src/BTServerFilter.cpp:232-246 | a concrete event about two Peripherals that the caller sees unaltered |
| Protocol.EncodeHeader | include/protocol.h:109-129 | in every packet the Size word is the size of its type, and Type, Handle and payload stand at offsets 4, 8 and 12 |
| Protocol.DecodeEncode | src/common.cpp:49-96 | what the receiver reads out of a packet is the message the Send function was given, payload included |
| Protocol.FirstBytes | include/protocol.h:98-129 | the first eight bytes of each packet, literally |
| Protocol.ConnectPlaced | include/protocol.h:54-60 | a Connect packet holds the 256 bytes of the name at offset 12, the controls there are at 268 and the analog ones at 272 |
| Protocol.StatePlaced | include/protocol.h:62-91 | float i of a state stands at offset 12 + 4i of its packet |
| Framing.RequestInFrame | src/common.cpp:98-111 | a read asks for at least one byte and never past the current frame or the packet buffer |
| Framing.ReceiveStep | src/common.cpp:113-125 | one read either stays inside the first outstanding frame or dispatches exactly it and resets the parser |
| Framing.RunDelivers | src/common.cpp:98-125 | under every chunking the packets dispatched are the frames in order, zero-padded, and the buffer holds the rest |
| Framing.EncodeUnambiguous | include/protocol.h:126-129 | all packet sizes of the protocol lie inside the faithful domain |
| Wire.ReadCarries | src/common.cpp:98-125 | a read leaves the messages under way as they were or hands over exactly the first of them |
| Wire.StepRefines | src/common.cpp:98-125 | every byte-level step is a message-level step or leaves the message-level state alone |
| Wire.WireLogs | src/backend/backend.cpp:90-119 | the same for the steps of byte-level runs |
| Registry.Find | src/frontend/frontend.mm:59-71 | the first position of a handle, or -1 if no controller has it |
| Registry.AttachTables | src/backend/backend.cpp:90-105 | an attach takes a handle never assigned before and keeps live entries and attached devices naming each other |
| Registry.DestroyTables | src/backend/backend.cpp:107-113 | destroying a device sends a Disconnect exactly if it was attached, and leaves the other live entries alone |
| Registry.LookupTables | src/backend/backend.cpp:51-60 | looking up an assigned handle reaches its device exactly if it is still attached, and null entries change no live entry |
| Registry.ReceiveFitting | src/frontend/frontend.mm:137-182 | an addressed message never raises and does to the sorted list what it means for the directory of controllers |
| RegistrySystem.QuietView | src/frontend/frontend.mm:137-171 | with nothing under way the list is the live devices in increasing order of handle |
| RegistrySystem.PlayerIndexRouting | src/backend/backend.cpp:51-60 | a delivered index reaches the device its handle was given to, or none once that is detached |
| RegistrySystem.HandlesAreFresh | src/backend/backend.cpp:90-113 | handles are never reused, 0 is never assigned, and only live entries are disconnected |
| Tracking.LocalNeverTold | src/frontend/frontend.mm:133-134 | no message ever carries the handle of local controllers, so a device given it is told nothing |
| Tracking.LogsAreHistory | src/backend/backend.cpp:90-119 | reports, wanted index and announcement kept in the state are those of the steps taken |
| Calibrations.AxisShape | src/backend/hidpad/HIDPad.cpp:34-60 | the output is within [-1,1], zero exactly on the dead zone, negative exactly below it, and at the limits exactly at or beyond the range |
| Calibrations.AxisMonotone | src/backend/hidpad/HIDPad.cpp:40-59 | a larger raw value never gives a smaller output across all branches, and a strictly larger one inside the range outside the dead zone |
| Calibrations.AxisOdd | src/backend/hidpad/HIDPad.cpp:34-60 | a calibration symmetric about its middle is odd under reflection |
| Calibrations.FixedTableOdd | src/backend/hidpad/HIDPad_DualShock4.cpp:95-99 | the fixed table is odd under v to 255-v and zero exactly from 100 to 155 |
| Calibrations.WideningDampens | src/backend/hidpad/HIDPad.cpp:48-59 | widening the range keeps the sign of every output and never increases its magnitude |
| Calibrations.Adapted | src/backend/hidpad/HIDPad.cpp:36-38 | the ordering assertions hold after every nonempty run of samples |
| Calibrations.NeverOutOfRange | src/backend/hidpad/HIDPad.cpp:40-42 | no sample is outside the range in force when it is read |
| Calibrations.AxisProportional | src/backend/hidpad/HIDPad.cpp:48-59 | on either side of the dead zone the output is proportional to the distance from it |
| RemoteStates.RemotePress | src/backend/hidpad/wiimote.h:123-136 | setting the bit of one button adds it, and it alone, to the set held |
| RemoteStates.ClassicPress | src/backend/hidpad/wiimote.h:138-154 | clearing the bit of one button adds it, and it alone, to the set held |
| Wiimotes.Completion | src/backend/hidpad/wiimote.cpp:256-324 | a completed handshake asks for one report type, sets the flags and the player's LED and returns 1 |
| Wiimotes.CommandBytes | src/backend/hidpad/wiimote.cpp:64-110 | the LED, report-type and status commands byte by byte |
| Wiimotes.ExpansionCommandBytes | src/backend/hidpad/wiimote.cpp:215-294 | the commands that switch the expansion on, identify it and read its calibration byte by byte |
| WiimoteRuns.HandshakeKeeps | src/backend/hidpad/wiimote.cpp:233-324 | report type last asked for and LEDs last sent stay in agreement with the phase and the index |
| WiimoteRuns.AxisIsAdapted | src/backend/hidpad/wiimote.cpp:452-466 | the axis state is the adaptive calibration of all its samples applied to the last |
| WiimoteRuns.ClassicAxisOutput | src/backend/hidpad/wiimote.cpp:468-475 | every sampled axis shows its last sample through the calibration of all of them |
| WiimoteRuns.SignalOfCall | src/backend/hidpad/HIDPad_WiiMote.cpp:49-80 | what reaches the handshake from a raw report: bit 1 of a status report, the four identifier bytes of a memory report |
| HciFilters.LearnPrefix | btserverfilter/src/BTServerFilter.cpp:199-225 | having seen a prefix of a packet makes no difference to what the whole of it teaches |
| HciFilters.ReadPrefix | btserverfilter/src/BTServerFilter.cpp:105-155 | between the reads of a packet the filter has faulted exactly if byte 12 or the header was out of reach; otherwise context and caller hold the prefix consumed, patched if it is to be, and learnt is what it teaches |
| HciFilters.LearnAllRecalls | btserverfilter/src/BTServerFilter.cpp:199-225 | the names are the latest that the bytes heard say per address and the local address is the first they say, zero before |
| HciFilters.UnfollowedReads | btserverfilter/src/BTServerFilter.cpp:122-151 | reads of which none begins like an event or ACL data are seen as they are and leave nothing under way |
| HciFilters.ContinuationPatched | btserverfilter/src/BTServerFilter.cpp:122-151 | a second read of such a packet that looks like a Peripheral inquiry is patched as one |
| HciFilters.SynchronousPatched | btserverfilter/src/BTServerFilter.cpp:122-151 | a concrete packet of type 3 in two reads that the caller sees changed |
| HciFilters.ReadBeyond | btserverfilter/src/BTServerFilter.cpp:126-152 | a read that goes on behind a packet is filtered as that packet and kept in no part |
| HciFilters.FollowedExactly | btserverfilter/src/BTServerFilter.cpp:126-135 | a packet is followed to its end exactly if it is an event or ACL data whose length bytes, low byte first, count what comes after them |
| HciFilters.NamesLearnt | btserverfilter/src/BTServerFilter.cpp:199-208 | of whole packets exactly those that begin 4, 7 with at least 252 parameter bytes, 255 among them, teach a name: the text in bytes 10 on, for the address in bytes 4 to 9 |
| HciFilters.AddressLearnt | btserverfilter/src/BTServerFilter.cpp:213-225 | the local address is bytes 7 to 12 of the first whole answer to Read BD_ADDR, and no other packet changes it |
| HciRuns.WrittenAsExpected | btserverfilter/src/BTServerFilter.cpp:159-196 | a write is altered exactly when the packets heard say so, and then only in the role byte or the PIN |
| HciRuns.RunRemembers | btserverfilter/src/BTServerFilter.cpp:105-155 | however the bytes fall into packets, what is known is what the packets in the hook's own context taught |
| HciRuns.WriteReachesDevice | btserverfilter/src/BTServerFilter.cpp:78-103 | a write reaches the device as that log demands, once if the device accepts it, again unaltered if it does not |
| HciRuns.RunReads | btserverfilter/src/BTServerFilter.cpp:105-155 | over any interleaving the reader is that of the reads alone, and faults exactly if they do |
| Elements.WalkMeetsFields | src/frontend/MFiWrapper.mm:71-76 | every element of the walk meets its own field and all eighteen values are consumed |
| Elements.EarlyReturnIsHarmless | src/frontend/MFiWrapper.mm:297-314 | a pad that leaves early would not have changed anything by going on |
| Elements.PadStep | src/frontend/MFiWrapper.mm:297-314 | after each new pair of values right less left is x and down less up is y, none is negative, one of each pair is zero, and the change handlers have fired exactly for the changes |
| Elements.LastPacketAlone | src/frontend/MFiWrapper.mm:203-221 | value, pressed flag and the split of a pad into its sides are determined by the last packet alone |
| Gamepads.ProAxesAdapt | src/backend/hidpad/HIDPad_WiiUPro.cpp:87-105 | each of the four axes holds the adaptive calibration of its own samples |
| Gamepads.SentAreAccepted | src/backend/hidpad/HIDPad_DualShock4.cpp:39-106 | the state packets sent are the decoded states of the accepted reports, in order |
| Gamepads.Ps3Bytes | src/backend/hidpad/HIDPad_Playstation3.cpp:108-128 | the fifty bytes of the DualShock 3 report, with the LED in byte 11 |
| Gamepads.OtherReportBytes | src/backend/hidpad/HIDPad_WiiUPro.cpp:129-142 | the reports of the other two drivers byte by byte, outside the colour |
| GamepadReports.HatRing | src/backend/hidpad/HIDPad_DualShock4.cpp:82-92 | position 0 is up and 1 up and right, two positions are a quarter turn clockwise, all eight are different and the fourth after each is its opposite |
| GamepadReports.Opposed | src/backend/hidpad/HIDPad_Playstation3.cpp:76-77 | the axis is negative exactly if the first pressure is there, positive exactly if only the second is |
| GamepadInputs.Ps4Decodes | src/backend/hidpad/HIDPad_DualShock4.cpp:39-106 | of any report at all: exactly those of 79 bytes with 0xC0 and 0 in bytes 2 and 3 are accepted, and give the state and the pause bit of the named controls field by field |
| GamepadInputs.Ps4RoundTrip | src/backend/hidpad/HIDPad_DualShock4.cpp:39-106 | every pad has a report that is accepted, read back as it was and decoded to what the pad shows |
| GamepadInputs.Ps3Decodes | src/backend/hidpad/HIDPad_Playstation3.cpp:47-91 | every report gives the state and the pause bit of the named controls, pressures out of 255 included |
| GamepadInputs.Ps3RoundTrip | src/backend/hidpad/HIDPad_Playstation3.cpp:47-91 | every pad has a report that is read back as it was and decoded to what the pad shows |
| GamepadInputs.ProDecodes | src/backend/hidpad/HIDPad_WiiUPro.cpp:42-112 | exactly the reports of 23 bytes with the ID 0x34 are accepted, and give the named controls, pressed where the bit is clear, with the sticks calibrated over all accepted reports |
| GamepadInputs.ProRoundTrip | src/backend/hidpad/HIDPad_WiiUPro.cpp:42-112 | every pad has a report that is accepted and read back as it was |
| GamepadInputs.MalformedIgnored | src/backend/hidpad/HIDPad_DualShock4.cpp:46-47 | a report of another size or with other marker bytes changes nothing beyond the light that was due |
| Connections.Connection.constructor | src/common.cpp:20-38 | a new connection is at the start of its stream with a zeroed buffer |
| Connections.Connection.Read | src/common.cpp:98-111 | the chunk read goes behind what the buffer holds; false exactly when nothing has arrived |
| Connections.Connection.Parse | src/common.cpp:113-125 | everything that has arrived is consumed, and the packets handled are a prefix of the frames written, all of them once all bytes are read |
| Connections.Connection.HandlePacket | src/common.cpp:119-122 | the buffer is handed over as it is, then cleared |
| Connections.Connection.SendConnect | src/common.cpp:49-57 | exactly the encoding of the message is appended to the stream |
| Connections.Connection.SendDisconnect | src/common.cpp:59-62 | exactly the encoding of the message is appended to the stream |
| Connections.Connection.SendInputState | src/common.cpp:64-72 | exactly the encoding of the message is appended to the stream |
| Connections.Connection.SendSetPlayerIndex | src/common.cpp:74-82 | exactly the encoding of the message is appended to the stream, the index in two's complement |
| Connections.Connection.SendPausePressed | src/common.cpp:84-87 | exactly the encoding of the message is appended to the stream |
| Connections.Connection.SendGenericPacket | src/common.cpp:89-96 | exactly a twelve-byte header is appended to the stream |
| Connections.Connection.ParseChunk | src/common.cpp:113-125 | one turn keeps packets handled and bytes outstanding in step with the frames, and fails exactly when nothing has arrived |
| AgentObjects.BackendAgent.AttachController | src/backend/backend.cpp:90-105 | the tables change as an attach does and the Connect packet goes out |
| AgentObjects.BackendAgent.FinalizeConnection | src/backend/hidpad/HIDPad.cpp:62-65 | the device remembers the handle the tables gave it |
| AgentObjects.BackendAgent.DetachController | src/backend/backend.cpp:107-113 | the entry is erased and a Disconnect goes out exactly if there was one |
| AgentObjects.BackendAgent.SendControllerState | src/backend/backend.cpp:115-119 | the state goes out under the device's handle |
| AgentObjects.BackendAgent.SendPausePressed | src/backend/backend.cpp:121-125 | the pause packet goes out under the device's handle |
| AgentObjects.BackendAgent.HandlePacket | src/backend/backend.cpp:44-68 | only the device of a live entry is told the index, unknown handles gain a null entry, other packets do nothing |
| AgentObjects.FrontendAgent.FindControllerByHandle | src/frontend/frontend.mm:59-71 | the loop finds the first controller with the handle, or -1 |
| AgentObjects.FrontendAgent.SetControllerIndex | src/frontend/frontend.mm:128-135 | the index goes out unless the handle is the local one |
| AgentObjects.FrontendAgent.HandlePacketConnect | src/frontend/frontend.mm:137-148 | a controller with new elements is appended and its index -1 goes out |
| AgentObjects.FrontendAgent.HandlePacketDisconnect | src/frontend/frontend.mm:150-162 | the controller is removed, or an exception is raised exactly when it is not found |
| AgentObjects.FrontendAgent.HandlePacketInputState | src/frontend/frontend.mm:164-171 | the element objects of the controller with the handle are updated in place, all others stay |
| AgentObjects.FrontendAgent.HandlePacketPausePressed | src/frontend/frontend.mm:173-182 | the paused handler of the controller with the handle is called, or none |
| AgentObjects.FrontendAgent.HandlePacket | src/frontend/frontend.mm:37-54 | packets are dispatched on their type and do what the decoded message means |
| AgentObjects.FrontendAgent.SetPlayerIndex | src/frontend/MFiWrapper.mm:78-82 | the controller keeps the index and sends it unless it is local |
| AgentObjects.FrontendAgent.LookupController | src/frontend/frontend.mm:154-155 | handle 0 is never looked up, any other is found or not |
| WiimoteObjects.Wiimote.constructor | src/backend/hidpad/HIDPad_WiiMote.cpp:21-30 | zeroed memory and the first call of the handshake |
| WiimoteObjects.Wiimote.SendCommand | src/backend/hidpad/wiimote.cpp:344-363 | the command is sent exactly if the remote is connected |
| WiimoteObjects.Wiimote.SetLeds | src/backend/hidpad/wiimote.cpp:98-110 | the upper four bits are stored and sent |
| WiimoteObjects.Wiimote.Turn | src/backend/hidpad/wiimote.cpp:166-329 | one turn of the switch returns or goes round again as the function of the turn says |
| WiimoteObjects.Wiimote.RunHandshake | src/backend/hidpad/wiimote.cpp:157-331 | the loop leaves the device and the result of the handshake function, and clears the pad exactly on the last read |
| WiimoteObjects.Wiimote.SetPlayerIndex | src/backend/hidpad/HIDPad_WiiMote.cpp:35-47 | the index is stored and its LED set if it has one |
| WiimoteObjects.Wiimote.ProcessAxis | src/backend/hidpad/wiimote.cpp:452-466 | one axis is updated in place, the others stay |
| WiimoteObjects.Wiimote.ClassicControllerEvent | src/backend/hidpad/wiimote.cpp:468-475 | all four axes and the buttons are updated from the report |
| WiimoteObjects.Wiimote.HandlePacket | src/backend/hidpad/HIDPad_WiiMote.cpp:49-83 | a report does to the object what the run step says, state packet included |
| WiimoteObjects.Wiimote.ProcessButtons | src/backend/hidpad/HIDPad_WiiMote.cpp:85-138 | the state of the remote, or of the expansion that is identified, goes to the frontend |
| WiimoteObjects.Wiimote.UpdateFrom | src/backend/hidpad/HIDPad_WiiMote.cpp:49-80 | buttons, handshake and expansion are updated as the report type says |
| HciObjects.HciFilter.WriteByte | btserverfilter/src/BTServerFilter.cpp:54-64 | the byte changes in the context and in the caller's buffer and nowhere else; offsets past the context are ignored; the write is outside the buffers exactly just past the context and in front of the current read |
| HciObjects.HciFilter.FilterRemoteNameRequestComplete | btserverfilter/src/BTServerFilter.cpp:199-208 | a context of at least 255 bytes gives the name in bytes 10 on to the address in bytes 4 to 9, a shorter one gives nothing |
| HciObjects.HciFilter.FilterCommandComplete | btserverfilter/src/BTServerFilter.cpp:213-225 | the first answer to Read BD_ADDR leaves its bytes 7 to 12 as the local address and the filter removed, anything else leaves both |
| HciObjects.HciFilter.FilterInquiryResult | btserverfilter/src/BTServerFilter.cpp:232-246 | byte 12 is patched in context and buffer exactly for single-response Peripherals, outside the buffer exactly if an earlier read brought it |
| HciObjects.HciFilter.ReadHook | btserverfilter/src/BTServerFilter.cpp:105-155 | the hook patches the caller's buffer in place as the read function says, leaves the rest of it alone, and faults exactly when that function does |
| HciObjects.HciFilter.FilterAcceptConnectionRequest | btserverfilter/src/BTServerFilter.cpp:159-171 | an eleven-byte command goes out with its role byte cleared |
| HciObjects.HciFilter.FilterPINCodeRequestReply | btserverfilter/src/BTServerFilter.cpp:176-196 | a reply to a Wii Remote goes out with the local address as PIN, any other is left alone |
| HciObjects.HciFilter.WriteHook | btserverfilter/src/BTServerFilter.cpp:78-103 | the device gets the filter's packet, the original, or both when it did not accept the first |
| HciObjects.FindText | btserverfilter/src/BTServerFilter.cpp:182 | the search succeeds exactly if the text occurs in the name |
| HciObjects.HciFilter.Filter | btserverfilter/src/BTServerFilter.cpp:137-141 | the filter of the event, if any, learns and patches as the functions say |
| ElementObjects.AxisInput.SetValue | src/frontend/MFiWrapper.mm:244-253 | the value is stored and the handler fired exactly if it differs |
| ElementObjects.ButtonInput.SetValue | src/frontend/MFiWrapper.mm:203-215 | value and pressed flag are stored and the handler fired exactly if the value differs |
| ElementObjects.DirectionPad.SetValues | src/frontend/MFiWrapper.mm:297-314 | two axes and four buttons are set in place as the pad function says |
| ElementObjects.GameController.constructor | src/frontend/MFiWrapper.mm:25-59 | handle, vendor, index -1, the fifteen elements in packet order, all at rest, with their analog flags and sharing no objects, and the two views holding those same elements |
| ElementObjects.GameController.UpdateButtons | src/frontend/MFiWrapper.mm:71-76 | the walk over the objects updates each from where the one before left the pointer |
| ElementObjects.SetSplit | src/frontend/MFiWrapper.mm:302-308 | the axis takes the value; the difference of its two buttons is that value, neither is negative and one is zero |
| GamepadObjects.DualShock4.SetPlayerIndex | src/backend/hidpad/HIDPad_DualShock4.cpp:33-37 | the index is in force, in eight bits, and a report becomes due |
| GamepadObjects.DualShock4.HandlePacket | src/backend/hidpad/HIDPad_DualShock4.cpp:39-106 | due report from the shared buffer, gate, pause edge and the whole state packet that `GamepadInputs.Ps4Decodes` gives by name |
| GamepadObjects.Playstation3.SetPlayerIndex | src/backend/hidpad/HIDPad_Playstation3.cpp:37-45 | the index is in force as an LED bit, or none, and a report becomes due |
| GamepadObjects.Playstation3.HandlePacket | src/backend/hidpad/HIDPad_Playstation3.cpp:47-91 | due report, pause edge and the whole state packet that `GamepadInputs.Ps3Decodes` gives by name, with no gate |
| GamepadObjects.WiiUPro.SetPlayerIndex | src/backend/hidpad/HIDPad_WiiUPro.cpp:36-40 | the index is in force, in eight bits, and a report becomes due |
| GamepadObjects.WiiUPro.Calibrate | src/backend/hidpad/HIDPad_WiiUPro.cpp:87-105 | the loop leaves the calibrations of all samples so far and reads each value through its own |
| GamepadObjects.WiiUPro.HandlePacket | src/backend/hidpad/HIDPad_WiiUPro.cpp:42-112 | due report, gate, in-place complement, pause edge and the whole state packet that `GamepadInputs.ProDecodes` gives by name; rejected reports change nothing else |
| GamepadObjects.DualShock4.SetReport | src/backend/hidpad/HIDPad_DualShock4.cpp:123-139 | the player's colour goes into the shared buffer, another index leaves it, and the whole buffer goes out |
| GamepadObjects.Playstation3.constructor | src/backend/hidpad/HIDPad_Playstation3.cpp:25-35 | nothing is lit, a report is due, and on iOS the controller has been told to start |
| GamepadObjects.Playstation3.SetReport | src/backend/hidpad/HIDPad_Playstation3.cpp:108-128 | the fifty-byte report goes out with the LED of the index in byte 11 |
| GamepadObjects.WiiUPro.constructor | src/backend/hidpad/HIDPad_WiiUPro.cpp:25-34 | a status request has gone out and a report is due |
| GamepadObjects.WiiUPro.SetReport | src/backend/hidpad/HIDPad_WiiUPro.cpp:129-142 | the report mode goes out, and the LED of a valid index |

## Left out

- WiimoteObjects.Wiimote.constructor: ends before FinalizeConnection, which is modelled with the backend as `AgentObjects.BackendAgent.FinalizeConnection`.
- ElementObjects.GameController.constructor: keeps the vendor name as bytes, without decoding them as UTF-8.
- ElementObjects.GameController.UpdateButtons: every change handler counts as installed, and handlers do not call back into the elements.
- HciObjects.HciFilter.ReadHook: ends where the filter indexes outside its buffers; what such an access does is not modelled.
- Streams with reads that span two HCI packets, beyond what `HciFilters.ReadBeyond` and `HciFilters.FirstAloneExactly` say of one such read.
- The socket hook that remembers the Bluetooth descriptor, and calls on other descriptors.
- CoreFoundation sockets and run loops, threads, IOKit, substrate hooking, Objective-C memory management and notifications.
- Logging and the packet logger.
- The keyboard front end: a table-driven update with no property over runs.
- Matching of device names to drivers and vendor strings.
- Partial or failed socket writes in the Send functions, whose results the code ignores.
