# Macropad firmware and flasher: a Dafny model

The firmware of this CH552 macropad is a main loop and a USB interrupt that share report
buffers, flags and endpoint registers; beside it stand two host-side clients of the chip's
bootloader. This project models that code and proves properties of whole runs of it. Code that
updates state in place is a class with the same fields, and each of its methods is proved
against a function on values; the laws are lemmas about those functions and about the
transition systems built from them.

| files | what they cover |
|---|---|
| `Keyboard`, `KeyboardLaws` | the keyboard and consumer report arrays (the layout of Appendix B.1 of the HID 1.11 specification behind a report ID), as bounded sets; the host's copy |
| `Actions`, `ActionLaws`, `HeldKeys` | bindings, multi-step triggers, and the no-stuck-keys invariant over every run |
| `TapLaws` | the very reports the host is shown by presses, releases, taps and triggers |
| `Control`, `ControlLaws` | Raw HID frames, checksum, pressed mask, sequence byte, the host's replay |
| `CommandLaws` | what each command does to everything it could touch |
| `MainLoop`, `MainLoopLaws` | the debouncer and the composition of one pass of the main loop |
| `PassEvents` | the passes as runs of `HeldKeys`: which bindings they run, and what arrives at the host |
| `Leds`, `LedLaws`, `TickLaws` | LED waveforms with their narrow casts, the render order, and the frames shown over ticks and passes |
| `EndpointIn`, `EndpointInLaws`, `InEndpoint` | the busy-flag handshake of the IN endpoints, byte by byte |
| `HostDelivery` | the keyboard and control models put together with the IN endpoints |
| `EndpointOut`, `EndpointOutLaws`, `OutEndpoint` | the NAK handshake of endpoint 2 OUT, one register update at a time |
| `CommandPort` | the reading of endpoint 2 and the handling of the frame, in one call |
| `SharedRam` | the endpoint windows and the descriptor copy loop |
| `ControlTransfer`, `ControlTransferLaws`, `RequestLaws`, `HaltRequests` | the endpoint-0 control-transfer machine, what each request gets, and what its halt requests do to endpoints 1 and 2 |
| `Flasher`, `FlasherLaws`, `ExitCodes` | the bootloader client in C++, for every sequence of replies: its packets, its checks byte by byte, its exit code |
| `FlashRoundTrip`, `BootSession` | what it leaves in the flash of an abstract bootloader, and the two in one loop |
| `ChProg`, `ChProgLaws` | the write loop of the Python client, and its agreement with the other one |
| `Wrappers` | shared types and byte arithmetic |

A bus reset is an oracle, `Strikes`, that may fire at every busy-wait, and an event of its own
between calls: an event of `HeldKeys`, the idle delay of a pass in `MainLoop`. The waits for
endpoint 2 are events of `HeldKeys` as well. In the endpoint
models it may fire anywhere.

## Where the code differs from what it is meant to do

- A consumer usage above 0xFF never matches, because `CON_report[i] == key & 0xFF` groups as
  `(CON_report[i] == key) & 0xFF` in C (include/usb_conkbd.c:199 and 222). A tap of such a usage
  leaves it pressed whenever there was a free pair: `KeyboardLaws.ConsumerTapRestoresExactly` is
  the exact condition, `ActionLaws.WideConsumerSticks` the run.
- The descriptor copy loop copies 256 bytes when its length is 0, over every endpoint's window
  (include/usb_handler.c:20-38). Two steps of endpoint 0 call it so: the IN completion after the
  last byte of a descriptor, and a request for 0 bytes of one. Every other step leaves the windows
  alone: `ControlTransferLaws.StepIsConfinedExactly`, `ControlTransferLaws.LastInOverwritesEveryWindow`,
  `ControlTransferLaws.EmptyReadOverwritesEveryWindow`. Variables at 0x100 and above are safe.
- `HID_ack` clears the byte count before it re-opens endpoint 2. A call returns with unread bytes
  and the endpoint open if and only if a non-empty packet lands between those writes
  (`EndpointOutLaws.AckWindowExactly`, `EndpointOutLaws.CallReturnsOpenExactly`), and the next
  packet can then tear a frame (`EndpointOutLaws.OpenEndpointTearsFrame`), even one the toggle
  check rejects (`EndpointOutLaws.RejectedPacketTearsFrame`). A 32-byte packet
  that lands in a call before that window is dropped, and exactly then is the set of frames
  handled not the set received (`EndpointOutLaws.FramesAreHandledExactlyOnce`).
- A bus reset inside an endpoint-1 copy delivers a report that is part old, part zero:
  `EndpointInLaws.FrameIsWholeExactly`, `EndpointInLaws.ResetUnderCopyTearsReport`.
- A halt request blocks an IN endpoint if and only if it is busy; an idle one is unharmed. A run
  ends blocked if and only if, since the last bus reset, some halt request struck while the
  endpoint was armed: `EndpointInLaws.HaltRequestBlocksExactly`, `EndpointInLaws.BlockedExactly`,
  `EndpointInLaws.BlockedUntilReset`.
- The debouncer reads the pin a third time for its memory; if that read disagrees, a pin can
  press twice in a row: `MainLoopLaws.EventTellsLevelExactlyWhenSettled`,
  `MainLoopLaws.UnsettledPinPressesTwice`.
- The flasher checks only a checksum of the session key, and its verify pass compares what was
  written with what is sent under the same key. So exit 0 or 9 does not mean that the firmware is
  in flash: against a bootloader that carries out its commands it means so exactly when that
  bootloader derives the client's key (`FlashRoundTrip.SuccessfulRunWritesTheImage`), and any key
  with the right checksum ends with exit 0 (`BootSession.EveryRunEnds`). A failing run is
  `BootSession.WrongKeyPassesVerify`. Against a device of which only the verify answers of the run
  are known to be truthful, the condition is the same: `FlashRoundTrip.SuccessMeansVerified`.

## Model

| member | source | states |
|---|---|---|
| Keyboard.Reports.PressCode | include/usb_conkbd.c:140-162 | in place: modifiers are merged even when the code is already there or nothing is free; the first free slot takes the code and only then a report is sent |
| Keyboard.Reports.ReleaseCode | include/usb_conkbd.c:167-181 | in place: modifiers and every occurrence of the code go, and a report is always sent |
| Keyboard.Reports.TapCode | include/usb_conkbd.c:186-189 | press then release, with the bus reset that may strike in each wait |
| Keyboard.Reports.PressConsumer | include/usb_conkbd.c:194-212 | first free pair takes the usage unless the code's (mis-grouped) match finds it |
| Keyboard.Reports.ReleaseConsumerUsage | include/usb_conkbd.c:217-228 | the pairs the same match finds are cleared; a report is always sent |
| Keyboard.Reports.TapConsumer | include/usb_conkbd.c:233-236 | press then release of a usage |
| Keyboard.Reports.ReleaseEverything | include/input_actions.c:89-92 | both reports become empty and are sent, keyboard first |
| Keyboard.Reports.HandleBusReset | include/usb_conkbd.c:123-127 | both reports become empty, nothing is sent, and what the host had is forgotten |
| Keyboard.Reports.SendKeyboardReport | include/usb_hid.c:35-45 | what is sent is the report as it stands after the wait, which a reset may have emptied |
| Keyboard.SlotOf | include/usb_conkbd.c:149-152 | finds the first of the six slots holding a code |
| Keyboard.ZeroSlots | include/usb_conkbd.c:176-179 | clears exactly the slots holding the code, in place |
| Keyboard.ZeroPairs | include/usb_conkbd.c:221-226 | clears exactly the pairs the match finds, in place |
| KeyboardLaws.InsertIsBoundedInsertion | include/usb_conkbd.c:140-162 | a press is insertion into a set of at most six codes, if there is room; codes stay pairwise distinct |
| KeyboardLaws.DeleteIsSetRemoval | include/usb_conkbd.c:167-181 | a release is removal from that set; codes stay pairwise distinct |
| KeyboardLaws.TapIsDelete | include/usb_conkbd.c:186-189 | a tap leaves what the release alone would, whether or not there was room |
| KeyboardLaws.TapRestoresExactly | include/usb_conkbd.c:186-189 | a tap gives the report back byte for byte if and only if none of its modifiers and not its code was there, also with six slots full |
| KeyboardLaws.ConsumerTapRestoresExactly | include/usb_conkbd.c:194-236 | a consumer tap gives the report back if and only if: for usages up to 0xFF, it was 0 or not there; above, no pair was free |
| KeyboardLaws.WideTapContents | include/usb_conkbd.c:199-222 | after the tap of a usage above 0xFF the report is what the press alone leaves |
| KeyboardLaws.TapKeepsOnlyWide | include/usb_conkbd.c:217-236 | nothing but usages above 0xFF ever stays in the consumer report |
| KeyboardLaws.PressAgrees | include/usb_conkbd.c:140-162 | after a press the host has the device's six slots and a subset of its modifiers |
| KeyboardLaws.TapAgrees | include/usb_conkbd.c:186-189 | the same after a tap, wherever a reset strikes |
| KeyboardLaws.ReleaseAgrees | include/usb_conkbd.c:167-181 | the same after a release |
| KeyboardLaws.ReleaseAllAgrees | include/input_actions.c:89-92 | the same after release-all |
| KeyboardLaws.TapUsageAgrees | include/usb_conkbd.c:233-236 | the same after a consumer tap |
| KeyboardLaws.BusResetAgrees | include/usb_hid.c:108-114 | a bus reset leaves them agreeing: the device's reports are cleared and the host has forgotten its own |
| TapLaws.PressInRoom | include/usb_conkbd.c:140-162 | with a free slot and the code absent, a press sends the report with the code in the first free slot and the modifiers added, all other bytes as before; if a reset strikes in the wait the host gets one empty report |
| TapLaws.PressWithoutRoom | include/usb_conkbd.c:140-162 | otherwise it only merges the modifiers and sends nothing |
| TapLaws.ReleaseExactly | include/usb_conkbd.c:167-181 | a release sends the report without the code and without the modifiers, byte for byte |
| TapLaws.NoKeyNoCall | include/usb_conkbd.c:141-168 | press, release and tap of code 0 do nothing |
| TapLaws.TapShowsItsKey | include/usb_conkbd.c:186-189 | with room, the code absent and no reset in the two waits, a tap appends exactly two reports: the first keeps every slot, has the code in the first free one and the modifiers added, the second is the final report |
| TapLaws.TapWithoutRoom | include/usb_conkbd.c:186-189 | with no room or the code held, it appends only the final report |
| TapLaws.PressUsageInRoom | include/usb_conkbd.c:194-212 | a consumer press puts the low byte first into the first free pair and sends that report |
| TapLaws.PressUsageWithoutRoom | include/usb_conkbd.c:197-211 | with the usage found or no pair free it does nothing |
| TapLaws.TapUsageShows | include/usb_conkbd.c:233-236 | from an empty consumer report a consumer tap appends exactly the report with the usage and the final one, which still has it when the usage is above 0xFF |
| Actions.Init | include/input_actions.c:37-50 | the nine power-on shortcuts, written in place |
| Actions.ActionTable.Trigger | include/input_actions.c:52-68 | all keyboard steps in order, or one consumer tap |
| Actions.ActionTable.TapSequence | include/input_actions.c:59-62 | the step loop stops at the count and at five |
| Actions.ActionTable.Press | include/input_actions.c:70-79 | holds press, app-only bindings do nothing, all others trigger |
| Actions.ActionTable.Release | include/input_actions.c:81-87 | only holds release |
| Actions.ActionTable.Apply | include/input_actions.c:94-110 | out-of-range controls, kinds and counts are ignored; otherwise everything is released first and one binding is replaced |
| ActionLaws.TapExactly | include/usb_conkbd.c:186-189 | one or two waits, and the report is the deletion or, if a reset struck in a wait, empty |
| ActionLaws.SequenceIsDeletion | include/input_actions.c:58-62 | a whole keyboard sequence removes exactly the codes and modifiers of its steps that name a key, or the report is empty because a reset struck |
| ActionLaws.SequenceClearsExactly | include/input_actions.c:58-62 | when no reset strikes in its waits, a sequence empties a slot if and only if some step names its code, and leaves ID and reserved byte alone |
| ActionLaws.SequenceClearsModifiers | include/input_actions.c:58-62 | and it keeps the modifier bits that no naming step has and clears those that one has |
| ActionLaws.HeldKeyStays | include/input_actions.c:52-110 | a code in the report stays there, and at the host, until an event deletes that code or clears everything or a bus reset strikes in one of the run's waits |
| ActionLaws.BoundHoldRoundTrip | include/input_actions.c:70-110 | from any reachable state and for every schedule of resets: after a packet binds a control as a hold, its press puts exactly that modifier and key into the report and the host's copy, or nothing if a reset strikes in its wait, and its release empties both |
| ActionLaws.NarrowConsumerEmpties | include/input_actions.c:63-67 | while no binding names a usage above 0xFF, the consumer report and the host's copy are empty between events, over every run |
| ActionLaws.WideConsumerSticks | include/input_actions.c:63-67 | otherwise a run of one binding packet, one press and one release leaves usage 0x0183 pressed at the host |
| TapLaws.SequenceShows | include/input_actions.c:58-62 | from any report of distinct codes and with no reset in its waits, a keyboard sequence shows the host, step by step in order, the press of each naming step that has room and is not held, and then its release; the reports are given as sets of codes and modifiers by a separate definition |
| TapLaws.SequenceTypes | include/input_actions.c:58-62 | with nothing held those are, byte for byte, each naming key alone and then the empty report |
| TapLaws.KeyboardTriggerShows | include/input_actions.c:52-68 | the same for a trigger of a control with a keyboard binding: the first min(count, 5) steps |
| TapLaws.KeyboardTriggerTypes | include/input_actions.c:52-68 | with nothing held it types exactly those keys |
| TapLaws.ConsumerTriggerShows | include/input_actions.c:63-67 | a trigger of a consumer binding shows the usage made of its first modifier (high) and usage (low) byte, and then the report after it |
| TapLaws.OtherTriggersDoNothing | include/input_actions.c:52-68 | unknown controls, counts of 0 and all other kinds trigger nothing |
| TapLaws.HoldShowsItsKey | include/input_actions.c:70-76 | pressing a control bound as a hold adds its key and modifiers and shows that report |
| TapLaws.HoldReleaseShows | include/input_actions.c:81-87 | releasing it shows the report without them |
| TapLaws.OnlyHoldsAreHeld | include/input_actions.c:70-87 | for all other controls a press is a trigger and a release nothing |
| TapLaws.ReleaseAllEmpties | include/input_actions.c:89-92 | release-all leaves both reports and both of the host's copies empty, wherever resets strike, and says which reports were sent |
| HeldKeys.StepKeepsInv | include/input_actions.c:52-110 | every press, release, trigger, packet, release-all, reset and wait for endpoint 2 keeps the held-key invariant |
| HeldKeys.RunKeepsInv | include/input_actions.c:52-110 | so does every run |
| HeldKeys.Run | include/input_actions.c:94-110 | over every run, binding kinds stay at most 4 and counts at most 5, and the reports keep their shape |
| HeldKeys.NoStuckKeys | include/input_actions.c:52-110 | over every run, each code and each modifier bit of the report belongs to a control that is down and now bound as a hold with that code or bit |
| HeldKeys.NothingDownNothingHeld | include/usb_conkbd.c:115-181 | over every run that ends with nothing down, the report and the host's copy are empty |
| HeldKeys.HostFollowsDevice | include/usb_conkbd.c:115-181 | over every run the host's slots are the device's and its modifiers a subset |
| Control.Checksum | include/device_control.c:92-95 | the checksum loop computes the exclusive-or of bytes 0 to 30 |
| Control.ControlPanel.Send | include/device_control.c:23-29 | seals the packet and hands it to endpoint 2 |
| Control.ControlPanel.SendStatusReport | include/device_control.c:31-45 | the status frame carries the pressed mask |
| Control.ControlPanel.EmitInputEvent | include/device_control.c:47-61 | updates mask and sequence and sends both; unknown controls do nothing |
| Control.ControlPanel.EmitRotationEvent | include/device_control.c:63-73 | counts the event and leaves the mask alone |
| Control.ControlPanel.HandleOut | include/device_control.c:92-107 | a frame that passes magic, version and checksum is dispatched; any other changes nothing |
| CommandPort.HandlePort | include/device_control.c:75-108 | the whole call: an empty endpoint does nothing, a 32-byte packet is read and handled, any other length is drained, and the endpoint is open after a packet |
| CommandPort.CallHandlesWhatIsHandedOn | include/device_control.c:75-108 | and a call nothing interrupts handles exactly the frames the interleaved model of endpoint 2 hands on in it |
| CommandPort.OtherPacketsChangeNothing | include/device_control.c:81-95 | nothing but a 32-byte packet with a good header and checksum changes the panel |
| CommandLaws.AcceptedExactly | include/device_control.c:92-95 | a packet is accepted if and only if it is 32 bytes long, starts with "CP" and 1 or 2, and the exclusive-or of all its bytes is 0 |
| CommandLaws.ReleaseAllCommand | include/device_control.c:103-106 | from every state and for every schedule of resets, command 0x31 leaves both reports and both host copies empty and the mask 0 and answers with a status frame; bindings, LEDs and numbering stay |
| CommandLaws.ReleaseAllCommandSends | include/device_control.c:103-106 | without resets the host gets an empty keyboard and an empty consumer report, in that order |
| CommandLaws.BindingCommand | include/input_actions.c:94-110 | command 0x20 in range releases everything and replaces exactly entry packet[4], by the kind, count and five pairs in bytes 5 to 16 |
| CommandLaws.BadBindingCommand | include/input_actions.c:95-98 | out of range it does nothing |
| CommandLaws.StatusCommand | include/device_control.c:101-102 | command 0x30 sends a status frame and does nothing else |
| CommandLaws.LedCommand | include/device_control.c:97-98 | commands 0x10 to 0x12 change the LEDs and nothing else |
| CommandLaws.OtherCommandsDoNothing | include/device_control.c:92-107 | unknown commands and rejected packets change nothing |
| CommandLaws.StatusFrameSays | include/device_control.c:31-45 | a status frame byte by byte, its exclusive-or 0 and the mask read back from bytes 10 and 11 |
| CommandLaws.InputFrameSays | include/device_control.c:47-73 | an event frame likewise |
| ControlLaws.OwnFramesAreAccepted | include/device_control.c:23-29 | every frame the device sends passes the test it applies itself |
| ControlLaws.SingleByteChangeIsCaught | include/device_control.c:92-95 | changing any one byte of an accepted frame makes it fail |
| ControlLaws.RejectedFramesChangeNothing | include/device_control.c:92-95 | such a frame leaves bindings, reports, LEDs, mask and sequence as they were |
| ControlLaws.VisibleControlIsAnInvolution | include/device_control.c:21 | the mirrored numbering is its own inverse |
| ControlLaws.ControlBitsAreSeparate | include/device_control.c:53-54 | different controls have different mask bits |
| ControlLaws.StepKeepsInv | include/device_control.c:47-108 | every event and every received packet keeps the host's replay equal to the device's mask and sequence |
| ControlLaws.ReplayReproducesMask | include/device_control.c:47-108 | so does every run |
| ControlLaws.SequenceCountsEvents | include/device_control.c:57-69 | the sequence byte is the number of events modulo 256 |
| ControlLaws.HostReplaysEveryRun | include/device_control.c:19-73 | from power-on, a host that numbers events and sets or clears bits itself agrees with every frame, and a bit is set exactly for the pressed controls |
| ControlLaws.StatusResynchronises | include/device_control.c:96-107 | a host with any mask, say after lost frames, has the device's from the next status frame on, over every run that follows |
| ControlLaws.MaskFollowsEachFrame | include/device_control.c:31-73 | once its mask is right, a host has after every later frame the mask that frame carries, over every run |
| HostDelivery.CarriedArrives | include/usb_hid.c:35-57 | over a stretch that costs no report, what the host received is exactly what the main code submitted, but for the last while it is in flight |
| HostDelivery.DeliveredFramesReplay | include/usb_hid.c:48-57 | for runs in which endpoint 2 carried every frame since power-on, with no bus reset and no halt request that caught one: the host's replay of the frames delivered agrees with each of them, and with the device's mask and numbering once the endpoint has drained |
| HostDelivery.DeliveredStatusResynchronises | include/device_control.c:96-107 | for all others: from any device state at the start of a stretch, say the last reset, and any state of the host, every frame delivered from the answer to a status request on leaves the host with the mask it carries, and once the endpoint has drained that is the device's |
| MainLoop.Firmware.OnPin | macropad_test.c:23-40 | one use of the input macro, with its three reads |
| MainLoop.Firmware.OnEncoder | macropad_test.c:92-103 | a falling edge of A triggers 8 or 6 by the level of B |
| MainLoop.Firmware.OnePass | macropad_test.c:84-115 | one pass in order: six keys, encoder, switch, packet, LED tick every twentieth pass, and a bus reset that may strike in the closing delay |
| MainLoopLaws.EventTellsLevelExactlyWhenSettled | macropad_test.c:23-40 | the event tells how the remembered level changed if and only if the third read agrees with the read acted on |
| MainLoopLaws.EventsAlternate | macropad_test.c:23-40 | then presses and releases of a pin alternate, starting with a press exactly when it started high |
| MainLoopLaws.FramesFollowThePin | macropad_test.c:23-40 | over every run of passes the press and release frames that name a pin's control are exactly that pin's events, in order, whatever the other inputs and packets do |
| MainLoopLaws.FramesAlternate | macropad_test.c:23-40 | so from boot on the frames the device sends for a settled pin press and release it in turn |
| MainLoopLaws.UnsettledPinPressesTwice | macropad_test.c:39 | without it a pin can press twice in a row |
| MainLoopLaws.TurnsFollowTheEncoder | macropad_test.c:84-116 | over every run of passes the rotation frames sent are the falling edges of A, one each and in order, naming control 8 if B was high and 6 if not |
| MainLoopLaws.AllHighMeansNothingPressed | macropad_test.c:75-115 | from boot, over every settled run with any packets and resets: when all pins were last seen high, the report, the host's copy and the mask are empty |
| PassEvents.PassesRunTheirEvents | macropad_test.c:84-115 | over every run of passes, settled or not, the keyboard side of the device is the one that the presses, releases, triggers, binding packets, release-alls and resets read off the samples and packets lead to, with the waits for endpoint 2 between them |
| PassEvents.HostFollowsEveryPass | macropad_test.c:84-115 | so over every run of passes from boot no key is stuck and the host agrees with the device |
| PassEvents.PressRunsItsBinding | macropad_test.c:23-40 | a debounced press of a pin runs exactly the binding of its control, after the wait for its frame |
| PassEvents.ReleaseEndsItsHold | macropad_test.c:23-40 | a debounced release releases it, before that wait |
| PassEvents.TurnRunsItsBinding | macropad_test.c:92-100 | a falling edge of A triggers control 8 or 6 by the level of B |
| PassEvents.HoldPressArrives | macropad_test.c:23-40 | a debounced press of a control bound as a hold leaves exactly its key and modifiers added, in the report and at the host, or both empty if a reset strikes in the wait of its send |
| PassEvents.FirstPressTypes | macropad_test.c:23-40 | the first press after power-on sends its shortcut, given as a table, with its modifiers, and then an empty report |
| PassEvents.FirstTurnTypes | macropad_test.c:92-100 | so does the first turn |
| Leds.LedTable.Show | include/led_control.c:51-78 | six levels first, then the chain 3 2 1 6 5 4 |
| Leds.LedTable.Apply | include/led_control.c:107-124 | set one, set all, all off; unknown indices change no LED |
| Leds.LedTable.Tick20ms | include/led_control.c:126-129 | one 16-bit tick and a render |
| LedLaws.LevelCastsAreLossless | include/led_control.c:29-49 | no narrow cast of the level computation loses anything |
| LedLaws.LevelAtMostBrightness | include/led_control.c:29-49 | the level never exceeds the brightness |
| LedLaws.ScaleIsLossless | include/led_control.c:25-27 | scaling fits a byte, never exceeds the channel, and full level keeps it |
| LedLaws.PulseShape | include/led_control.c:40-45 | a pulse rises from 0 to exactly the brightness at half its period, then falls |
| LedLaws.PulseNeverJumps | include/led_control.c:40-45 | adjacent ticks, period wrap included, differ by at most brightness / half, rounded up |
| LedLaws.BlinkDutyCycle | include/led_control.c:37-38 | every window of one period is lit for exactly half of it, rounded up |
| LedLaws.ChainShowsEveryLed | include/led_control.c:69-75 | each LED leaves the chip once, at the place its own entry of the chain gives |
| LedLaws.SteadyPacketShowsItsColor | include/led_control.c:80-124 | a steady colour set by packet appears, scaled by its brightness, at the place in the chain of the LED it names, or of all |
| LedLaws.OtherLedsKeepTheirSettings | include/led_control.c:107-124 | setting one LED changes no other; all-off darkens every pixel and keeps all other settings |
| TickLaws.TicksAdvance | include/led_control.c:126-129 | n ticks add n to the counter modulo 65536 and leave the settings alone, from any state |
| TickLaws.TicksShow | include/led_control.c:59-78 | after n ticks each LED shows, at its place of the chain K3 K2 K1 K6 K5 K4, its colour at the level of that tick |
| TickLaws.BlinkingFrames | include/led_control.c:37-38 | of any period of successive ticks exactly half, rounded up, show a blinking LED in its colour |
| TickLaws.PulsingFrames | include/led_control.c:39-45 | two successive ticks show a pulsing LED at levels no further apart than the slope |
| TickLaws.PulsingPeaks | include/led_control.c:39-45 | in the middle of its period a pulsing LED is shown at full brightness, at its start dark |
| TickLaws.PacketsSetAndShow | include/led_control.c:80-124 | an LED command sets exactly what its bytes 4 to 10 say, leaves the counter and the other LEDs, and shows the new settings at once |
| TickLaws.PowerOnIsWhite | include/led_control.c:92-105 | at power-on all six show white at 48 of 255 |
| TickLaws.PassesTick | macropad_test.c:108-111 | over every run of passes the counter advances once in every 20 |
| TickLaws.PassesAreTicks | macropad_test.c:108-111 | without LED packets the LEDs after n passes are those after (divider + n) / 20 ticks |
| InEndpoint.Sender.Send | include/usb_hid.c:39-44 | copy loop and arming tail, in place, leave the registers as the model's steps of an uninterrupted send do |
| InEndpoint.Sender.OnComplete | include/usb_hid.c:117-121 | the completion handler keeps the registers equal to the model state |
| EndpointIn.StepKeepsInv | include/usb_hid.c:35-57 | every interleaved step keeps the interlock and delivery invariant |
| EndpointInLaws.ArmedBufferIsUntouched | include/usb_hid.c:35-57 | in every reachable state an armed endpoint is busy, no copy is running, and the buffer is the last frame |
| EndpointInLaws.StretchDelivers | include/usb_hid.c:35-57 | from any reachable state, through any run without a bus reset or a halt request that catches a report, the host gets exactly the frames of the reports that settle, in order, and only one already open at the start can be torn |
| EndpointInLaws.SubmittedReportsAreLogged | include/usb_hid.c:35-57 | over every run without a bus reset, the reports the endpoint took on and the one still open are those from before and those the main code submitted, in order |
| EndpointInLaws.HostGetsWhatWasSubmitted | include/usb_hid.c:35-57 | between any two such interruptions, what the host has, the report in flight and the one still open are together exactly what these were at the start and the reports submitted since, whole and in order, unless one was torn at the start |
| EndpointInLaws.OnlyTheOpenReportIsTorn | include/usb_hid.c:35-57 | and if one was torn at the start, all later ones that settle are whole |
| EndpointInLaws.ResetStartsAStretch | include/usb_hid.c:108-114 | every bus reset starts such a stretch, with nothing torn exactly unless it cut into an endpoint-1 copy or found a torn one |
| EndpointInLaws.LossesAreCounted | include/usb_hid.c:108-121 | a run loses exactly one report for each reset or halt request that catches one in flight |
| EndpointInLaws.Conservation | include/usb_hid.c:35-57 | every report is delivered, lost or in flight |
| EndpointInLaws.FrameIsWholeExactly | include/usb_conkbd.c:123-127 | a report arrives as submitted if and only if no reset cleared a nonzero byte ahead of its copy |
| EndpointInLaws.UninterruptedSend | include/usb_hid.c:35-45 | a send nothing interrupts arms the endpoint with the report |
| EndpointInLaws.UndisturbedReportsArrive | include/usb_hid.c:35-57 | from any state with the busy flag clear, halted or not, every sequence of reports, each sent and then read, arrives whole and in order and leaves the endpoint at rest |
| EndpointInLaws.ResetUnderCopyTearsReport | include/usb_hid.c:39-44 | a reset after any byte of an endpoint-1 copy makes the host get that many bytes and then zeros |
| EndpointInLaws.HaltRequestBlocksExactly | include/usb_handler.c:187-201 | a halt request leaves the endpoint busy and not armed if and only if it was busy |
| EndpointInLaws.BlockedExactly | include/usb_handler.c:187-201 | a run ends blocked if and only if some halt request since the last bus reset struck while the endpoint was armed, or it began blocked and no reset came |
| EndpointInLaws.BlockedUntilReset | include/usb_hid.c:35-57 | a blocked endpoint sends and receives nothing any more until a bus reset |
| HostDelivery.DrainedHostAgrees | include/usb_hid.c:35-45 | once endpoint 1 has drained, the host's reports worked out from what it received since the last bus reset agree with the device's, whatever came before that reset |
| HostDelivery.DrainedHostHoldsNoKey | include/usb_hid.c:35-45 | and with no control down the host holds an empty keyboard report |
| OutEndpoint.Endpoint2.Read | include/usb_hid.c:95-106 | one byte, and the endpoint re-opens with the last one |
| OutEndpoint.Endpoint2.OnOut | include/usb_hid.c:136-146 | a packet out of step is ignored; an empty one does not close the endpoint |
| OutEndpoint.Endpoint2.Receive | include/device_control.c:81-90 | a 32-byte packet is handed on as it is, any other length is drained, and the endpoint is open after a call that found a packet |
| OutEndpoint.UninterruptedCallIsReceive | include/device_control.c:81-90 | left alone, the interleaved model of the call ends as Receive does |
| EndpointOutLaws.StepKeepsUnreadMeansNak | include/usb_hid.c:89-146 | from a good state a step keeps "unread bytes mean NAK" if and only if it is not a re-enabling with bytes unread |
| EndpointOutLaws.AckWindowExactly | include/usb_hid.c:89-93 | however packets and halts interleave with the last two writes of HID_ack, the endpoint is open at the end, with unread bytes if and only if there were some before or a non-empty in-sync packet landed in between |
| EndpointOutLaws.CallReturnsOpenExactly | include/usb_hid.c:89-93 | so a call from a good state returns with unread bytes meaning NAK if and only if no such packet landed |
| EndpointOut.StepKeepsInv | include/usb_hid.c:89-146 | every step but a packet inside HID_ack and a re-enabling with bytes unread keeps the whole invariant |
| EndpointOutLaws.FramesAreIntactInOrderAtMostOnce | include/device_control.c:81-90 | over every run without those two, the frames handled are 32-byte packets the endpoint accepted, unchanged, in order, each at most once |
| EndpointOutLaws.FramesAreHandledExactlyOnce | include/device_control.c:81-90 | over such a run, whenever nothing is pending, the frames handled are exactly the 32-byte packets accepted if and only if none of those landed inside a call |
| EndpointOutLaws.PacketInsideAckOpensTheEndpoint | include/usb_hid.c:89-93 | a packet landing inside HID_ack leaves the endpoint open with the packet unread |
| EndpointOutLaws.OpenEndpointTearsFrame | include/usb_hid.c:95-106 | from there a second packet makes the device handle a frame made of two |
| EndpointOutLaws.RejectedPacketTearsFrame | include/usb_hid.c:136-146 | so does a packet the toggle check rejects, since it is in the buffer before the check |
| EndpointOutLaws.NothingUnreadIsOpen | include/usb_hid.c:89-146 | the endpoint never goes deaf: after every run, disturbed or not, with no byte unread and not in the middle of HID_ack or a read, it answers ACK or was halted |
| SharedRam.CopyLoop | include/usb_handler.c:20-38 | the copy loop runs len times, or 256 times for 0, and copies that many bytes |
| SharedRam.WindowsAreWhereTheControllerLooks | include/usb_descr.h:24-36 | the windows follow from the packet sizes, and the IN buffer of an endpoint is 64 bytes behind its OUT buffer |
| SharedRam.WindowsAreDisjoint | include/usb_descr.h:24-36 | the interleaved endpoint windows do not overlap and end before the variables |
| SharedRam.PacketsStayInTheirWindow | include/usb_handler.h:14-31 | a packet of its declared size changes no other endpoint's window and no variable |
| SharedRam.CopyIsConfinedExactly | include/usb_handler.c:20-38 | a descriptor copy leaves everything beyond endpoint 0 alone, for all memories, if and only if its length is 1 to 64 |
| SharedRam.EmptyCopyOverwritesEveryWindow | include/usb_handler.c:30-35 | a copy of length 0 puts code memory into all four windows and stops short of the variables |
| ControlTransfer.Endpoint0.HandleSetup | include/usb_handler.c:44-302 | all standard requests, what they do to endpoints 1 and 2, the failure value, and DATA1 with ACK or STALL |
| HaltRequests.SetupChangesHalfExactly | include/usb_handler.c:155-273 | a SETUP sets the answer and toggle of one direction of endpoint 1 or 2 exactly when it is a supported halt request naming it, and leaves all others alone |
| HaltRequests.LastTouchDecides | include/usb_handler.c:44-332 | over every run of endpoint 0, the answer and toggle of each direction of endpoints 1 and 2 are what the last event that touches it made them: a supported halt request naming it, a bus reset or its own use |
| HaltRequests.UntouchedHalfStays | include/usb_handler.c:304-332 | and no other SETUP, IN or OUT of a run changes it |
| HaltRequests.InHalfTakesItsStep | include/usb_handler.c:187-201 | the change of an IN direction is the step the endpoint's own model takes |
| HaltRequests.OutHalfTakesItsStep | include/usb_handler.c:192-195 | so is that of endpoint 2 OUT |
| HaltRequests.ResetReachesEveryHalf | include/usb_hid.c:108-114 | a bus reset sets every direction as those models do |
| ControlTransfer.Endpoint0.HandleIn | include/usb_handler.c:304-327 | next chunk, deferred address, or end |
| ControlTransfer.Endpoint0.HandleOut | include/usb_handler.c:329-332 | NAK is OR-ed into the response, so a stalled endpoint stays stalled |
| ControlTransfer.Endpoint0.HandleBusReset | include/usb_handler.c:424-435 | address 0 and the default responses |
| RequestLaws.DeviceAndConfigAreServed | include/usb_handler.c:60-66 | a GET_DESCRIPTOR of type 1 or 2 delivers the first wLength bytes of the device or configuration descriptor |
| RequestLaws.StringsAreServed | include/usb_handler.c:68-109 | type 3 delivers the string of its index, the language list for indices not defined |
| RequestLaws.ReportsAreServed | include/usb_handler.c:111-122 | type 0x22 delivers the keyboard's report descriptor for interface 0 and the Raw HID one for interface 1; any other index is refused |
| RequestLaws.OtherTypesAreRefused | include/usb_handler.c:123-125 | all other types are refused with STALL |
| RequestLaws.EveryRegionIsServed | include/usb_handler.c:60-133 | for every descriptor there is a request that delivers all of it |
| RequestLaws.SetupIsTakenExactly | include/usb_handler.c:44-302 | a SETUP is answered with ACK and DATA1 if and only if it is 8 bytes long and one of the supported requests, listed by their numbers, and otherwise refused and forgotten |
| RequestLaws.OtherAnswers | include/usb_handler.c:136-302 | what the host then gets: two zero bytes of status, the configuration value, or an empty packet, cut to wLength |
| RequestLaws.RefusalLasts | include/usb_handler.c:290-293 | a refused request stalls both directions until the next SETUP or reset, over every run |
| RequestLaws.InEndsOtherRequests | include/usb_handler.c:304-327 | the first IN after any supported request but GET_DESCRIPTOR ends it: nothing is left to read, the toggles are back, and only SET_ADDRESS may change the address |
| RequestLaws.OutEndsTheRequest | include/usb_handler.c:329-332 | an OUT ends any request: the NAK bits are OR-ed into the answer, also of a stalled endpoint, and nothing is left to read |
| RequestLaws.SpentStaysSpent | include/usb_handler.c:304-332 | from then on, over every run, no IN is answered until the next SETUP or reset |
| RequestLaws.ResetStartsOver | include/usb_handler.c:424-435 | at power-on and after a bus reset the address is 0, the default answers are in place and endpoints 1 and 2 are open at DATA0; a reset keeps configuration and RAM |
| ControlTransferLaws.DescriptorArrivesWhole | include/usb_handler.c:127-133 | for every descriptor and requested length: 64-byte packets, the first short one is number m / 64, toggles alternate from DATA1, and together they are the first m bytes |
| ControlTransferLaws.CollectedIsPrefix | include/usb_handler.c:308-315 | after any number of INs the host has exactly that many chunks of the descriptor |
| ControlTransferLaws.RunKeepsInv | include/usb_handler.c:44-332 | over every interleaving the cursor delimits the unsent rest of what the latest SETUP asked for, and a stall forgets the request |
| ControlTransferLaws.CopiesStayInsideTheDescriptor | include/usb_handler.c:308-312 | so the bytes any IN would copy lie inside that one descriptor |
| ControlTransferLaws.AddressChangesOnlyWhenDue | include/usb_handler.c:317-320 | the address changes only to 0 on reset, or to the requested value when the latest SETUP was a SET_ADDRESS and its IN completes |
| ControlTransferLaws.AddressArrives | include/usb_handler.c:317-320 | addresses up to 127 arrive whole and the general-purpose bit stays |
| ControlTransferLaws.AddressIsDeferred | include/usb_handler.c:136-138 | the old address stays until the status stage, the new one from then on, and an OUT in place of the status stage abandons the change |
| ControlTransferLaws.ConfigurationIsRemembered | include/usb_handler.c:140-147 | GET_CONFIGURATION returns the value of the last SET_CONFIGURATION, whatever happened in between, a bus reset included |
| ControlTransferLaws.StepIsConfinedExactly | include/usb_handler.c:20-38 | a step of endpoint 0 leaves everything beyond its own buffer alone, whatever RAM holds, if and only if it does not serve a chunk with nothing left: an IN after the last byte, or a request for 0 bytes |
| ControlTransferLaws.ChunksAreConfined | include/usb_handler.c:129-130 | a chunk of at least one byte stays inside the 64-byte buffer |
| ControlTransferLaws.EmptyReadOverwritesEveryWindow | include/usb_handler.c:127-133 | a request for 0 bytes of a descriptor fills every endpoint window with code memory |
| ControlTransferLaws.LastInOverwritesEveryWindow | include/usb_handler.c:309-310 | the IN completion after the last byte fills every endpoint window with code memory |
| Flasher.Client.Command | tools/iokit_ch55x_flasher.cpp:119-155 | framing, and the checks on the reply's command, length field and length |
| Flasher.Client.DetectAndReadConfig | tools/iokit_ch55x_flasher.cpp:203-259 | identity and configuration must match the baseline byte for byte, upper half of CFG3 excepted |
| Flasher.Client.SetSessionKey | tools/iokit_ch55x_flasher.cpp:261-297 | the key derived from the UID, accepted on its checksum |
| Flasher.Client.EraseCodeFlash | tools/iokit_ch55x_flasher.cpp:299-312 | the sector count in 32 bits, acknowledged by exactly 00 00 |
| Flasher.Client.TransferImage | tools/iokit_ch55x_flasher.cpp:314-346 | the chunk loop, stopping at the first chunk not acknowledged |
| Flasher.PadToEight | tools/iokit_ch55x_flasher.cpp:318-319 | the image followed by the fewest zeros that make its length a multiple of 8 |
| Flasher.Client.Run | tools/iokit_ch55x_flasher.cpp:375-424 | the whole session and its exit code, for every sequence of replies |
| FlasherLaws.CommandsFollowThePlan | tools/iokit_ch55x_flasher.cpp:390-424 | whatever the device answers, the packets are a prefix of the mode's plan, nothing past the key exchange is sent unless all checks passed, and exit 0 or 9 means the whole plan with every verify chunk acknowledged |
| FlasherLaws.PlanCommands | tools/iokit_ch55x_flasher.cpp:390-424 | the full plan is A1 A7 A3 A4, k times A5, the same k chunks under A6, and A2 |
| FlasherLaws.ErasePlanCommands | tools/iokit_ch55x_flasher.cpp:390-413 | its first four commands |
| FlasherLaws.TransferSends | tools/iokit_ch55x_flasher.cpp:321-343 | a transfer sends a prefix of the chunks, and all of them, all acknowledged, when it succeeds |
| FlasherLaws.ChunksTileTheImage | tools/iokit_ch55x_flasher.cpp:322-332 | every image byte travels at the place its packet's address says, in a payload of at most 61 bytes, keyed as if the image were keyed whole |
| FlasherLaws.Le32RoundTrip | tools/iokit_ch55x_flasher.cpp:52-57 | reading back a 32-bit number gives the number written |
| FlasherLaws.ReplyCarries | tools/iokit_ch55x_flasher.cpp:143-153 | a reply is accepted with a payload if and only if it is the command, any tag, the payload's length and the payload, of at most 60 bytes |
| FlasherLaws.ChecksumDoesNotPinTheKey | tools/iokit_ch55x_flasher.cpp:273-295 | for the all-zero UID a different key is confirmed by exactly the same replies |
| ExitCodes.OpeningPackets | tools/iokit_ch55x_flasher.cpp:203-312 | the first four packets of a session, byte by byte |
| ExitCodes.RestartPacket | tools/iokit_ch55x_flasher.cpp:417-418 | and the last |
| ExitCodes.ChunkFraming | tools/iokit_ch55x_flasher.cpp:321-332 | a chunk packet is at most 64 bytes: command, length, address, a zero byte, data |
| ExitCodes.PacketsFitATransfer | tools/iokit_ch55x_flasher.cpp:121-133 | a command is sent if and only if its packet fits 64 bytes |
| ExitCodes.AcknowledgedExactly | tools/iokit_ch55x_flasher.cpp:299-346 | a reply acknowledges if and only if it is the command, any byte, 02 00 and 00 00 |
| ExitCodes.DetectedExactly | tools/iokit_ch55x_flasher.cpp:203-221 | detection succeeds if and only if the reply carries 52 11 |
| ExitCodes.ConfigAcceptedExactly | tools/iokit_ch55x_flasher.cpp:229-257 | a configuration reply is accepted if and only if its 30 bytes are the baseline, given byte by byte |
| ExitCodes.KeyAcceptedExactly | tools/iokit_ch55x_flasher.cpp:285-296 | the key is accepted if and only if the reply carries its checksum and 00 |
| ExitCodes.KeyComesFromTheReply | tools/iokit_ch55x_flasher.cpp:261-284 | each key byte is the sum of bytes 22 to 25 of the configuration reply, the last with 0x52 added |
| ExitCodes.SumAddsUp | tools/iokit_ch55x_flasher.cpp:263-275 | the checksum of no bytes is 0, of one byte more that byte more, modulo 256 |
| ExitCodes.FewestSectors | tools/iokit_ch55x_flasher.cpp:377-384 | the fewest sectors of 1024 bytes that hold the image, but at least 8 |
| ExitCodes.ExitCodeIsExact | tools/iokit_ch55x_flasher.cpp:375-424 | for every device, mode and image the exit code is that of the first check that fails, in the order of the session, or 0 |
| FlashRoundTrip.EraseCoversTheImage | tools/iokit_ch55x_flasher.cpp:377-384 | 8 to 14 sectors, covering the padded image, never reaching past 0x3800 |
| FlashRoundTrip.FlashBeyondTheImageIsUntouched | tools/iokit_ch55x_flasher.cpp:390-424 | for all replies and wherever a run stops, an executing bootloader's flash past the erased sectors is as before, and in the two dry modes all of it is |
| FlashRoundTrip.SkewedPackets | tools/iokit_ch55x_flasher.cpp:314-346 | the packets for an image under the client's key are those for another image, given byte by byte, under the bootloader's |
| FlashRoundTrip.FlashedHoldsExactly | tools/iokit_ch55x_flasher.cpp:261-297 | and that image is the client's if and only if the two keys are one |
| FlashRoundTrip.SuccessfulRunWritesTheImage | tools/iokit_ch55x_flasher.cpp:412-424 | after exit 0 or 9 an executing bootloader with whatever key of its own holds the padded image as that key decodes it, then FF to the end of the erased sectors, then the old contents; so it holds the firmware if and only if its key is the client's |
| BootSession.Keyed | tools/iokit_ch55x_flasher.cpp:261-297 | the abstract bootloader's key reply is accepted exactly when its key has the checksum of the client's |
| BootSession.VerifySucceeds | tools/iokit_ch55x_flasher.cpp:415 | the verify pass, acknowledged only where flash matches, succeeds after the program pass whatever the two keys are |
| BootSession.EveryRunEnds | tools/iokit_ch55x_flasher.cpp:375-424 | with every reply computed by the abstract bootloader from the packets sent, whatever its UID, key and old flash: exit 0 exactly when its key has the client's checksum, and then the firmware is in flash exactly when the keys are equal; otherwise exit 5 and flash as before |
| BootSession.EveryFirmwareIsFlashed | tools/iokit_ch55x_flasher.cpp:375-424 | with equal keys each firmware of an accepted size ends with exit 0 and in flash, any other is refused with nothing sent |
| BootSession.WrongKeyPassesVerify | tools/iokit_ch55x_flasher.cpp:261-297 | with the all-zero UID and the chip ID at the other end of the key, every firmware of an accepted size is reported as flashed and none is in flash |
| FlashRoundTrip.SuccessMeansVerified | tools/iokit_ch55x_flasher.cpp:414-424 | after exit 0 or 9 against a device that acknowledged no verify packet of this run that did not match, flash holds the padded image if and only if the device's key is the one derived |
| ChProg.Programmer.Transfer | tools/chprog.py:177-193 | data that does not fit is refused, anything else is written |
| ChProg.Programmer.Write | tools/chprog.py:290-321 | the loop over the one reused buffer, and where it stops |
| ChProg.FillBuffer | tools/chprog.py:304-312 | one packet in place: header, data, keyed bytes, and the old tail |
| ChProgLaws.WriteSends | tools/chprog.py:299-321 | what was sent is chunk 0, 1, 2, ..., and the write is done if and only if it sent every chunk and every reply was accepted |
| ChProgLaws.WriteTilesTheData | tools/chprog.py:299-316 | in a write that is done, each address is covered by exactly one packet, which carries its byte keyed exactly when the address is 7 modulo 8 |
| ChProgLaws.WriteStopsAs | tools/chprog.py:290-321 | a write that does not fit sends nothing; any other that is not done stopped at the first reply not accepted, with the outcome that reply and the mode call for |
| ChProgLaws.ShortChunksKeepTheTail | tools/chprog.py:299-316 | behind a short chunk each packet still carries the bytes of the packet before, from the first, zeros |
| ChProgLaws.EncodersAgree | tools/chprog.py:304-312 | a chunk is the other client's packet under the key that is zero but for the chip ID, except the padding byte |

## Left out

- IOKit discovery, pyusb set-up, the probe tools, argument parsing and printing.
- ChProg: detection, erase, exit and the version 1 loop; the data-length check and the version 2 write are modelled.
- The ROM bootloader: `FlashRoundTrip` assumes one that erases to FF, programs by clearing bits and decodes with a session key of its own, and separately one that only answers the verify packets of a run truthfully; its code, and whether it derives the key as the client does, are not part of this model.
- Delays, watchdog, clock, pins, pixel bit timing and the gamma table.
- USB signalling below the registers: an IN completes only on ACK, an OUT packet is accepted only on ACK; data toggles of endpoints 1 and 2 appear only as the handler's in-sync test.
- The contents of descriptors: endpoint 0 serves arbitrary byte sequences of the right kind.
- Branches of the control handler for endpoints 3 and 4, and vendor requests: not compiled in.
- How endpoints 1 and 2 are otherwise used is one arbitrary event of `ControlTransfer`; their own files model it.
- ASCII typing, `NEO_writeHue`, the keyboard LED state and the status LED of endpoint 1 OUT: the firmware loop does not use them.
- Liveness of the busy-waits: safety only; `InEndpoint.Sender.Send` starts once the wait is over.
- EndpointIn: the arming tail of a send is one step, and the descriptor copy of length 0 (see `SharedRam`) is not one of its steps.
- EndpointOut: the pointer increment and the count decrement of one read are one step.
- HeldKeys: a bus reset strikes at busy-waits and between calls; `EndpointIn` covers the points inside a copy.
- MainLoopLaws.AllHighMeansNothingPressed: a bus reset strikes at waits and in the delay of a pass; one between two inputs finds the reports as it would at the next wait.
- HostDelivery.DrainedHostAgrees: that the main code submitted to endpoint 1 exactly the reports the keyboard model sent since the last reset is the premise that links the two models; so for `HostDelivery.DeliveredFramesReplay`, `HostDelivery.DeliveredStatusResynchronises` and endpoint 2.
- LedLaws.PulseNeverJumps: the wrap of the 16-bit tick, where the phase may jump, is excluded.
- LedLaws.BlinkDutyCycle: likewise without the wrap of the 16-bit tick, and for a nonzero brightness.
