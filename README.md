# SPK-DVIMXR mixer core in Dafny

The SPK-DVIMXR is a two-input DVI video mixer. An mbed microcontroller reads a
crossfader, a fade-to-black lever, two tap buttons and a rotary encoder. It drives
a TV One video processor over RS-232, talks OSC, ArtNet or DMX on its RJ45 socket,
and shows menus on a 128x64 OLED. This project models the controller's logic
and proves properties of that model.

The model has one module per part of the firmware:

- `FadeMath` (fade_math.dfy) covers the pure mixing arithmetic of `main.cpp`:
  - the `fadeCalc` dead zone;
  - tap-button override of the crossfader;
  - the per-mode resolver from crossfade, fade-up and fade curve to the
    percentages of windows A and B;
  - the anti-flutter change test.

  Floating point is modelled with `real`, and C's float-to-int conversion as
  truncation toward zero.
- `MenuRules` (menu_rules.dfy) covers the small menu rules of `main.cpp`:
  - the fade-curve step and the Blend/Additive choice;
  - the HDCP, EDID and aspect read-back classifiers;
  - the keyer edit clamps;
  - the RJ45/comms compatibility rule;
  - OSC and DMX input mapping.
- `TVOneDevice` (processor.dfy) is the TV One processor as the controller sees
  it. It is a register store addressed by (channel, window, function), plus a
  log of every request. Whether a request is acknowledged is nondeterministic,
  and an unacknowledged write may or may not have taken effect.
- `MixController` (mixer.dfy) holds the controller's global state as a class.
  It covers:
  - one pass of the mixing loop and the send order of the fade commands;
  - `actionMixMode` and `setKeyParamsTo`;
  - `checkTVOneMixStatus` reconciliation;
  - `handleTVOneSources` with its failure counter and source latches;
  - the `conformProcessor` retry loop;
  - the menu handlers that change processor or mixer state.
- `TVOneLink` (tvone_link.dfy) covers `SPKTVOne::command`:
  - the 8 request bytes and the 8-bit checksum;
  - the 20-character hex frame and its parser;
  - acknowledgement acceptance;
  - draining unread input;
  - the write and error signals;
  - the `setHDCPOff` command chain.
- `IndexMenu` (index_menu.dfy) models `SPKIndexInRange` and the menu classes
  of `spk_utils.h`.
- `Settings` (settings.dfy) models `SPKSettings`:
  - the defaults;
  - the bounds-checked keyer editing accessors;
  - the list accessors;
  - the INI `load` scans, with the INI dictionary as a value.
- `RotaryEncoder` (rotary_encoder.dfy) models the press flag and the
  position-change accumulator of `SPKRotaryEncoder`.
- `OledBuffer` (oled_buffer.dfy) models the in-place writers of the 1056-byte
  OLED page buffer. The font table is a parameter.
- `Osc` (osc.dfy) models the `OSCMessage` setters and getters. It also models
  `OSCClass::sendOsc` and `decodePacket`, using OSC 1.0 string padding and
  big-endian 32-bit arguments. The decoder uses the corrected address scan
  (see ## Findings); the scan as written is modelled beside it.

Two modules hold shared definitions: `TVOneCodes` (tvone_codes.dfy) has the TV One
function and source codes from `spk_tvone.h`, and `Wrappers` (wrappers.dfy) has the
Option type.

`OSC/mbedOSC.cpp` and `mbedOSC.cpp` hold the same message and codec logic.
`mbedOSC.cpp` only adds comments, so the model follows `OSC/mbedOSC.cpp` once.

## Model

| member | source | states |
|---|---|---|
| FadeMath.FadeCalc | main.cpp:349-357 | the result is in [0,1]; it is 0 at or below the tolerance and 1 at or above 1 - tolerance |
| FadeMath.FadeCalcLinearBand | main.cpp:349-357 | between the dead zones the reading is tolerance + pos * (1 - 2 * tolerance), i.e. pos = (AIN - tol) / (1 - 2 tol) |
| FadeMath.FadeCalcMonotone | main.cpp:349-357 | fadeCalc is non-decreasing in the reading |
| FadeMath.TapXFade | main.cpp:1775-1794 | the crossfade is in [0,1]; left alone cuts to 0 and right alone to 1; both held go to the side opposite the one pressed first; the left-first flag is set by left alone, cleared by right alone, and kept otherwise; with no tap the crossfade is 1 - fadeCalc(reading) |
| FadeMath.MixLevels | main.cpp:1827-1859 | in Blend, A plus what A lets through of B always adds up to fade-up; keyer modes keep B at fade-up; modes below Blend leave both windows at 0 |
| FadeMath.TapOverridesFader | main.cpp:1775-1793 | while a tap is held the crossfader reading has no effect, and the crossfade is 0 or 1 |
| FadeMath.TapSecondPressWins | main.cpp:1778-1791 | holding both taps goes to the side pressed second: left then right gives 1, right then left gives 0 |
| FadeMath.FadeUpFrom | main.cpp:1796 | fade-up is in [0,1]: 1 with the lever in its bottom dead zone, 0 in its top dead zone |
| FadeMath.ResolvePercents | main.cpp:1823-1859 | each percentage is the mode's level times 100 truncated toward zero (for non-negative levels) |
| FadeMath.BlendDivisorPositive | main.cpp:1833-1837 | with xFade > 0 and fadeUp in [0,1] the Blend divisor 1 - u + x*u is at least x, so the division is defined |
| FadeMath.LevelsInUnit | main.cpp:1827-1859 | for crossfade, fade-up and curve in [0,1] every mode's A and B levels are in [0,1] |
| FadeMath.BlendLevelsInUnit | main.cpp:1827-1843 | Blend levels are defined and in [0,1] for inputs in [0,1] |
| FadeMath.AdditiveLevelsInUnit | main.cpp:1844-1854 | Additive levels, capped at 1 then scaled by fade-up, are in [0,1] |
| FadeMath.KeyLevelsInUnit | main.cpp:1855-1859 | keyer-mode levels are in [0,1] |
| FadeMath.BlendBInUnit | main.cpp:1836 | the Blend B level x*u / (1 - u + x*u) is in [0,1] |
| FadeMath.CappedInUnit | main.cpp:1847-1853 | a capped additive level times fade-up is in [0,1] |
| FadeMath.PercentsInRange | main.cpp:1827-1859 | for inputs in [0,1] both percentages are in [0,100] in every mode |
| FadeMath.BlendComposites | main.cpp:1829-1837 | Blend with A over B: B shows x*u through A, and the composite total is u |
| FadeMath.BlendEnds | main.cpp:1833-1842 | Blend at x = 0 is (u, 0) and at x = 1 is (0, u) |
| FadeMath.AdditiveSymmetric | main.cpp:1844-1854 | Additive levels mirror under x -> 1 - x |
| FadeMath.AdditiveFullCurveMiddle | main.cpp:1844-1854 | with curve 1 at mid-crossfade both windows are at full fade-up |
| FadeMath.KeyerBackgroundHolds | main.cpp:1855-1859 | in key modes B stays at fade-up and A never exceeds it |
| FadeMath.FadeChanged | main.cpp:1864-1873 | a change implies a new value; no change with a new value only when it equals the previously sent value and is exactly current +/- 1 |
| FadeMath.LargeMoveChanges | main.cpp:1864-1873 | a move of 2 or more always counts as a change |
| FadeMath.FlutterSuppressed | main.cpp:1864-1873 | flipping back to the previously sent neighbour is suppressed; moving on past it is not |
| MenuRules.Clamp | main.cpp:1029-1031 | the result is in [lo,hi] and equals v when v is already in range |
| MenuRules.ClampNearest | main.cpp:1029-1031 | the clamped value is the in-range value nearest to v |
| MenuRules.FadeCurveStep | main.cpp:748-754 | the curve moves by 0.05 per step, clamped to [0,1]; Additive iff the curve exceeds 0.001, Blend otherwise |
| MenuRules.FadeCurveReachesEnds | main.cpp:748-754 | 20 steps reach full Additive (1.0) or Blend (0.0) from anywhere |
| MenuRules.ClassifyHDCP | main.cpp:791-802 | Off iff output and both inputs read 0, On iff all read 1, Mixed otherwise |
| MenuRules.HDCPTarget | main.cpp:829 | the action turns HDCP on exactly when it reads as Off |
| MenuRules.HDCPToggles | main.cpp:791-802 | after the action writes its target to output and inputs, a read-back is On if it was Off and Off otherwise |
| MenuRules.ClassifyEDID | main.cpp:862-873 | Thru iff both inputs hold the passthrough slot, Internal iff both hold the same other slot, Mixed iff they differ |
| MenuRules.EDIDTargetSlot | main.cpp:898-902 | Internal switches to the passthrough slot; anything else writes the resolution's slot |
| MenuRules.EDIDToggles | main.cpp:862-902 | writing the target slot to both inputs reads back as Thru when it was Internal (or the resolution's slot is the passthrough slot), else Internal |
| MenuRules.ClassifyAspect | main.cpp:937-958 | state 1 iff both read HFill or both VFill, 2 iff both read 1:1, else 0 |
| MenuRules.AspectForState | main.cpp:977-982 | the setting written is one of Fit, HFill, 1:1 |
| MenuRules.AspectRoundTrip | main.cpp:937-982 | writing a state's setting to both inputs reads back as that state |
| MenuRules.AspectVFillNeverSent | main.cpp:945-982 | VFill is never written and reads back the same as HFill |
| MenuRules.EditUpper | main.cpp:1083-1087 | an edited upper bound is clamped to [0,255] |
| MenuRules.EditLower | main.cpp:1101-1105 | an edited lower bound is at most the upper bound, non-negative when the upper is, and stored + change whenever that lies in [0, upper] |
| MenuRules.EditedPairOrdered | main.cpp:1083-1105 | after editing max then min, 0 <= min <= max <= 255 |
| MenuRules.EditLowerWithoutSet | main.cpp:1101-1105 | with no set being edited (upper reads -1) the lower clamp yields -1 |
| MenuRules.ChooseComms | main.cpp:1605-1707 | the mode is none or the choice; DMX wiring never gets OSC/ArtNet, Ethernet wiring never gets DMX; a compatible choice is taken |
| MenuRules.OSCSurvivesEthernetFailure | main.cpp:1626-1660 | choosing OSC on Ethernet wiring leaves OSC selected even when Ethernet setup fails |
| MenuRules.OscIn | main.cpp:226-265 | only /dvimxr/xFade or /dvimxr/fadeUp with one 'f' argument changes a value, and only the addressed one, to that float |
| MenuRules.OscInSetsAddressed | main.cpp:226-253 | each of the two addresses sets exactly its own control |
| MenuRules.DmxIn | main.cpp:315-323 | DMX channel values 0..255 map to value/255 in [0,1] |
| MenuRules.DmxOutValue | main.cpp:332-337 | a control in [0,1] is sent as an integer in [0,255] |
| MenuRules.DmxRoundTrip | main.cpp:315-337 | DMX in then DMX out returns the same channel values |
| TVOneDevice.Apply | main.cpp:456-461 | a write request sets its register; other requests change no register |
| TVOneDevice.ApplyAll | main.cpp:593-630 | applying a script never forgets a register |
| TVOneDevice.ApplyAllLastWins | main.cpp:593-630 | after a script, a register holds the payload of the last write to it |
| TVOneDevice.ApplyAllUntouched | main.cpp:593-630 | a register no write addresses keeps its value |
| TVOneDevice.ApplyAllSplit | main.cpp:593-630 | applying the first n + 1 requests is applying request n after the first n |
| TVOneDevice.ChainSentComplete | main.cpp:456-461 | an `ok = ok && ...` chain that succeeded issued its whole script |
| TVOneDevice.ChainSentShortFailed | main.cpp:456-461 | a chain that stopped short failed |
| TVOneDevice.Processor.constructor | main.cpp:153 | the processor as the controller finds it: its firmware version and registers, and no request sent yet |
| TVOneDevice.Processor.Command | spk_tvone_mbed.cpp:29-124 | logs the write; an acknowledged write took effect; an unacknowledged one may or may not have |
| TVOneDevice.Processor.ReadCommand | main.cpp:549-575 | logs the read; a successful read returns the register's value; a failed read leaves the caller's payload |
| TVOneDevice.Processor.SetResolution | main.cpp:625 | logs the resolution request |
| TVOneDevice.Processor.SetHDCPOn | main.cpp:630 | logs the HDCP request |
| TVOneDevice.Processor.ResetCommandPeriods | main.cpp:417-440 | logs the period reset |
| TVOneDevice.Processor.IncreaseCommandPeriods | main.cpp:424-436 | logs the period increase |
| TVOneDevice.Processor.Perform | main.cpp:593-630 | issues one script request; a successful write applies it |
| TVOneDevice.Processor.CommandChain | main.cpp:593-630 | the requests sent form a chain prefix of the script; on success the registers are the script applied to the old ones |
| MixController.KeyerScript | main.cpp:456-461 | the six keyer writes MinY..MaxV on window A, in that order, with the set's values |
| MixController.KeyerUploadHolds | main.cpp:456-461 | after the keyer script every keyer register holds the set's value |
| MixController.WantAdditive | main.cpp:542-544 | the additive flag is wanted on iff the mode is Additive |
| MixController.WantKeyer | main.cpp:542-544 | the keyer flag is wanted on iff the mode is a key mode |
| MixController.FlagsExclusive | main.cpp:542-544 | at most one flag is wanted; Blend wants neither |
| MixController.FailureRequests | main.cpp:419-442 | a failure issues at most one period request |
| MixController.IncreaseThenReset | main.cpp:422-441 | a period increase on one failure is always followed by a reset on the next |
| MixController.FirstFailureResets | main.cpp:438-441 | the first failure resets the periods |
| MixController.FailureRunNeverStacks | main.cpp:414-442 | a run of consecutive failures never issues two increases in a row, and starts with a reset at any count that is 1 mod 15 |
| MixController.LinkNotices | main.cpp:430-432 | "Resetting link" is posted exactly on failures whose count is a multiple of 15 |
| MixController.View | main.cpp:385-386 | an input shows Live iff it is stable now, Hold only when it has latched and is not live |
| MixController.ConformScriptActions | main.cpp:593-630 | every conform step is a write, resolution or HDCP request |
| MixController.ConformLogShape | main.cpp:632-646 | the conform log always ends with a period reset, preceded by the three preset stores exactly when the script succeeded |
| MixController.NetworkControls | main.cpp:1798-1821 | only OSC with a new message or DMX-in replaces the local controls; DMX-in uses the DMX mapping |
| MixController.Pushes | main.cpp:1877-1905 | the fade pushes never include the mode action |
| MixController.CycleModeActionOnce | main.cpp:1875-1915 | the mode action runs exactly once in a pass iff the mode changed |
| MixController.CycleModeActionPlace | main.cpp:1875-1915 | the mode action goes before the fades when leaving Additive, otherwise after |
| MixController.PushesOnce | main.cpp:1877-1905 | each window is pushed at most once, exactly when it changed, with its new value |
| MixController.PushesHigherFirst | main.cpp:1877-1905 | when both change, the higher new percentage is sent first (A first on a tie) |
| MixController.Controller.constructor | main.cpp:171-224 | the globals' initial values: Blend, zero fades, no keyer set uploaded, nothing latched, no comms |
| MixController.Controller.SetKeyParamsTo | main.cpp:447-471 | the same index sends nothing and succeeds; a new index sends a chain of the keyer script, and success means every keyer register holds the set |
| MixController.Controller.ActionMixMode | main.cpp:473-530 | mixModeOld becomes mixMode even on failure; non-key modes first turn the keyer off; success means the processor is in the mode (flags and, for Additive, B's level) |
| MixController.Controller.ActionKeyMode | main.cpp:508-522 | success means the keyer is on, additive is off on firmware 423, and a newly selected set is uploaded |
| MixController.Controller.ReadModeFlags | main.cpp:542-555 | only reads; when the reads succeed, action is needed iff a flag differs from the mode |
| MixController.Controller.ReconcileFade | main.cpp:563-578 | only the fade register can change; success means it holds the level; a matching register gets only a read |
| MixController.Controller.CheckMixStatus | main.cpp:532-581 | success needs the flag reads to succeed and means both fade registers hold the levels; the mode action runs (once, and takes over the mode) exactly when the flag reads succeeded and a flag differed, and otherwise the mode, notices and trace are kept; a processor already in the desired state gets only reads |
| MixController.InDesiredState | main.cpp:538-578 | the state needing no action: both fade registers hold the levels and the keyer flag is the mode's |
| MixController.Controller.ReadSources | main.cpp:363-377 | only reads; on success the values returned are the source registers and the two stability flags |
| MixController.Controller.RouteInput | main.cpp:399-409 | the wanted source is the input if live else SIS2; it is written only if it differs from the current one |
| MixController.Controller.LinkBackoff | main.cpp:414-442 | the counter is 0 on success and one more on failure; the period requests and notices are the failure schedule's |
| MixController.Controller.RouteUnlatched | main.cpp:399-410 | latches never clear; a new latch means the input is live and routed (B to RGB1, A to RGB2) |
| MixController.Controller.HandleSources | main.cpp:359-445 | the latches are one-way; a new latch means the routing holds; the counter and the trailing period requests follow the outcome |
| MixController.Controller.ConformProcessor | main.cpp:583-649 | 1 to 3 attempts, each a chain of the conform script, all but the last failed, 3 when failing; then presets on success and a period reset |
| MixController.Controller.ChainWithRetries | main.cpp:590-634 | up to 3 chain attempts, stopping at the first success, with a 500 ms back-off after each failure |
| MixController.Controller.ReadControls | main.cpp:1751-1821 | the tap flag and the controls are the tap rule, the fade-up rule and the network input; DMX-out also queues the values |
| MixController.Controller.SendFade | main.cpp:1879-1905 | one fade-level write for the window |
| MixController.Controller.PushChanged | main.cpp:1877-1905 | a changed window commits (old := current, current := new); an unchanged one keeps both; the pushes are in send order, and the processor gets one fade write per push in the same order |
| MixController.FadeWrites | main.cpp:1877-1905 | one write per push, to that window's fade register, with its level |
| MixController.Controller.ActionModeChange | main.cpp:1875-1876 | the mode action runs only on a mode change: from the call before the fades only when leaving Additive, from the call after them otherwise |
| MixController.Controller.SendPercents | main.cpp:1861-1915 | commits each window by the anti-flutter rule, records the pass's events in order, and leaves mixModeOld == mixMode |
| MixController.Controller.NetworkOut | main.cpp:1918-1931 | an update sends the controls by the active protocol only |
| MixController.Controller.MixPass | main.cpp:1749-1931 | after a mixing pass the mode is acted upon (mixModeOld == mixMode) |
| MixController.Controller.Housekeeping | main.cpp:1933-1942 | source latches stay set; mixModeOld only moves to mixMode |
| MixController.Controller.LoopPass | main.cpp:1749-1942 | a whole pass: mode acted upon, latches kept; without an idle link no supervision state changes |
| MixController.Controller.AdditiveMenuStep | main.cpp:748-754 | curve and mode are the fade-curve rule's result; the curve stays in [0,1] |
| MixController.Controller.SelectMixModeItem | main.cpp:1554-1575 | entry 0 selects Blend and entry k key mode k + 1; a choice that changes the mode leaves the key editor, keyer sets and processor untouched |
| MixController.Controller.KeyMenuStep | main.cpp:1016-1097 | the choice is clamped to 0..2; Cancel ends editing (index -1); Tweak and Start Over both make the selected mix-mode entry's set the edited one and move on to step 2 with the choice back at 0; Tweak then edits that set's max Y, while Start Over first opens the set to 0/255 ranges, sends them, and then edits max Y from 255; edited values stay in range |
| MixController.Controller.StartOver | main.cpp:1047-1063 | the edited set becomes 0/255 ranges (or nothing when none is edited) and the six open ranges are sent |
| MixController.Controller.OpenEditedRanges | main.cpp:1049-1055 | only the edited set is opened to 0/255 ranges |
| MixController.Controller.EditStep | main.cpp:1081-1215 | steps 2..7 edit one bound each (step 2 moves max Y by the change, clamped, stores and sends it); step 8 returns to 0; other steps send nothing |
| MixController.Controller.EditUpperStep | main.cpp:1083-1097 | sends and stores the clamped upper bound; no other value of the set, and no other set, changes |
| MixController.Controller.EditLowerStep | main.cpp:1101-1117 | sends and stores the lower bound clamped to [0, upper]; no other value changes |
| MixController.Controller.HDCPMenuStep | main.cpp:773-848 | the choice is clamped to 0..1; the action sends the HDCP target and posts its notice; otherwise nothing is written |
| MixController.Controller.EDIDMenuStep | main.cpp:849-924 | the choice is clamped; the action records passthrough iff it was Internal and writes the target slot to input 1 first |
| MixController.Controller.AspectMenuStep | main.cpp:925-1015 | the choice is clamped to 0..3; an action other than Cancel stores and writes that state's aspect setting |
| MixController.Controller.SelectResolution | main.cpp:1576-1600 | sends the resolution with the passthrough slot when EDID passthrough is on, and posts a notice |
| MixController.Controller.SelectComms | main.cpp:1601-1707 | the comms mode becomes the compatibility rule's result |
| MixController.Controller.Rj45Changed | main.cpp:1464-1475 | a changed RJ45 switch cancels the comms mode; an unchanged one keeps it |
| TVOneLink.RequestBytes | spk_tvone_mbed.cpp:43-61 | 8 bytes: 0x04, channel, window, the function's low 16 bits big-endian, the payload's low 24 bits big-endian |
| TVOneLink.TwoBytes | spk_tvone_mbed.cpp:56-57 | the two function bytes recombine to func mod 2^16 |
| TVOneLink.ThreeBytes | spk_tvone_mbed.cpp:59-61 | the three payload bytes recombine to payload mod 2^24 |
| TVOneLink.ChecksumDetectsOneByte | spk_tvone_mbed.cpp:65-68 | changing any one byte changes the 8-bit wrapping checksum |
| TVOneLink.ChecksumOf | spk_tvone_mbed.cpp:65-68 | the loop computes the 8-bit wrapping sum of the eight bytes |
| TVOneLink.Checksum | spk_tvone_mbed.cpp:65-68 | the checksum is the byte sum modulo 256 |
| TVOneLink.HexValue | spk_tvone_mbed.cpp:70 | a parsed hex digit is in 0..15 |
| TVOneLink.HexDigitValue | spk_tvone_mbed.cpp:70 | an uppercase hex digit parses back to its value |
| TVOneLink.HexPairs | spk_tvone_mbed.cpp:70 | two characters per byte |
| TVOneLink.ParsePairs | spk_tvone_mbed.cpp:70 | a parse yields one byte per two characters |
| TVOneLink.ParsePairsOfHexPairs | spk_tvone_mbed.cpp:70 | %02X pairs parse back to the bytes |
| TVOneLink.HexPairsOfParsePairs | spk_tvone_mbed.cpp:70 | anything that parses is exactly the pairs of what it parses to |
| TVOneLink.Frame | spk_tvone_mbed.cpp:70 | the frame is 'F', two characters per byte, then '\r' |
| TVOneLink.ParseFrame | spk_tvone_mbed.cpp:70 | a parsed frame has the frame's length and delimiters |
| TVOneLink.FrameRoundTrip | spk_tvone_mbed.cpp:70 | parsing a frame gives back its bytes |
| TVOneLink.ParseFrameExact | spk_tvone_mbed.cpp:70 | the parser accepts only exact frames |
| TVOneLink.FrameExample | spk_tvone_mbed.cpp:43-70 | channel 0, window A, function 0x10F, payload 50 gives "F040041010F00003287\r" |
| TVOneLink.AckSlotsAsWritten | spk_tvone_mbed.cpp:80-93 | the reply loop as written stores character k into ack[k], without bound |
| TVOneLink.AckStoresAsWritten | spk_tvone_mbed.cpp:88-93 | the loop as written stores the i-th character into ack[i], whatever i has reached |
| TVOneLink.AckOverflowExample | spk_tvone_mbed.cpp:80-93 | a 21st character is stored at index 20, outside the slots 0..19 of the array |
| TVOneLink.ReceiveAck | spk_tvone_mbed.cpp:80-101 | success iff at least 20 characters arrived and the first two are 'F','4' |
| TVOneLink.AckAccepted | spk_tvone_mbed.cpp:94-99 | fewer than 20 characters never succeed; an accepted reply starts with "F4" |
| TVOneLink.ChainLength | spk_tvone_mbed.cpp:134-145 | a chain sends commands up to and including the first failure |
| TVOneLink.ChainOutcome | spk_tvone_mbed.cpp:134-145 | a chain stopped after n commands succeeded iff every reply is accepted, and n is the chain length |
| TVOneLink.BuildRequest | spk_tvone_mbed.cpp:43-61 | the array holds the request bytes |
| TVOneLink.SerialLink.constructor | spk_tvone_mbed.cpp:11-27 | signals are present as configured; nothing sent or pending |
| TVOneLink.SerialLink.Drain | spk_tvone_mbed.cpp:37-39 | all unread input is discarded |
| TVOneLink.SerialLink.WriteFrame | spk_tvone_mbed.cpp:37-70 | pending input is drained, then the frame is transmitted |
| TVOneLink.SerialLink.Command | spk_tvone_mbed.cpp:29-124 | success is the acknowledgement rule; the frame is sent after draining; the write signal is high during the call and low after; only failure raises the error signal |
| TVOneLink.SerialLink.Send | spk_tvone_mbed.cpp:29-124 | one command: success is the acknowledgement rule and its frame is appended to what went out |
| TVOneLink.SerialLink.SendNext | spk_tvone_mbed.cpp:134-145 | the next command of a chain: what went out is the frames of the first n + 1 commands |
| TVOneLink.SerialLink.SignErrorOff | spk_tvone_mbed.cpp:182-185 | the error signal goes low |
| TVOneLink.SerialLink.CommandChain | spk_tvone_mbed.cpp:134-145 | success iff every reply is accepted; the frames sent stop after the first failure |
| TVOneLink.SerialLink.SetHDCPOff | spk_tvone_mbed.cpp:132-145 | the six HDCP-off commands are sent in order up to the first failure; success iff all are accepted |
| IndexMenu.StepUp | spk_utils.h:10-13 | stepping up keeps an in-range index in range |
| IndexMenu.StepDown | spk_utils.h:15-18 | stepping down keeps an in-range index in range |
| IndexMenu.StepDownUndoesStepUp | spk_utils.h:10-18 | `--` undoes `++` unless `++` was stuck at max without wrap |
| IndexMenu.StepUpUndoesStepDown | spk_utils.h:10-18 | `++` undoes `--` unless `--` was stuck at min without wrap |
| IndexMenu.StepsUpClimb | spk_utils.h:10-13 | k increments below max add k |
| IndexMenu.StepsUpCompose | spk_utils.h:10-13 | a + b increments are a increments then b |
| IndexMenu.StepsUpFullCircle | spk_utils.h:10-13 | with wrap, (max - min + 1) increments return to the start |
| IndexMenu.IndexInRange.constructor | spk_utils.h:37-42 | the default range is [0,1] with wrap and index 0 |
| IndexMenu.IndexInRange.Within | spk_utils.h:44-46 | the range and wrap as given, the index clamped into it |
| IndexMenu.IndexInRange.Set | spk_utils.h:20-24 | the index is clamped into [min,max] |
| IndexMenu.IndexInRange.SetRange | spk_utils.h:26-31 | sets the range and wrap, then clamps the index |
| IndexMenu.IndexInRange.SetMax | spk_utils.h:33-35 | max changes and the index does not; the invariant holds afterwards iff the index is still within |
| IndexMenu.IndexInRange.Increment | spk_utils.h:10-13 | `++`: wraps or sticks at max, else increments; keeps the invariant |
| IndexMenu.IndexInRange.Decrement | spk_utils.h:15-18 | `--`: wraps or sticks at min, else decrements; keeps the invariant |
| IndexMenu.Menu.OfMenus | spk_utils.h:62-64 | a menu of menus starts empty, selection 0 in [0,0] with wrap |
| IndexMenu.Menu.OfPayloads | spk_utils.h:123-127 | a payload menu starts with "Cancel" carrying (0,0) |
| IndexMenu.Menu.Select | spk_utils.h:70-72 | assigning an int selects it clamped to the items |
| IndexMenu.Menu.Next | spk_utils.h:74-76 | `++` steps the selection with wrap |
| IndexMenu.Menu.Previous | spk_utils.h:78-80 | `--` steps the selection with wrap |
| IndexMenu.Menu.AddText | spk_utils.h:82-85 | appends the text and sets max to count - 1 |
| IndexMenu.Menu.AddSubmenu | spk_utils.h:108-111 | appends the submenu's title and the submenu; the lists stay in step |
| IndexMenu.Menu.AddPayloadItem | spk_utils.h:133-137 | appends text and both payloads; the three lists stay equal in length |
| IndexMenu.Menu.SelectedIndex | spk_utils.h:87-89 | the selection is a valid item index |
| IndexMenu.Menu.SelectedString | spk_utils.h:91-93 | the selected text is one of the items |
| IndexMenu.Menu.SelectedMenu | spk_utils.h:113-115 | the selected submenu is one of the submenus |
| IndexMenu.Menu.SelectedPayload1 | spk_utils.h:139-141 | a payload of the list; 0 for Cancel |
| IndexMenu.Menu.SelectedPayload2 | spk_utils.h:143-145 | a payload of the list; 0 for Cancel |
| Settings.KeySectionSet | spk_settings.h:299-330 | six values per section |
| Settings.KeySectionRead | spk_settings.h:308-330 | the six values are MinY, MaxY, MinU, MaxU, MinV, MaxV in that order |
| Settings.KeyScan | spk_settings.h:289-363 | at most one entry per remaining section number |
| Settings.ResolutionScan | spk_settings.h:367-419 | at most one entry per remaining section number |
| Settings.KeyScanIsPrefix | spk_settings.h:297-363 | entry i exists iff sections n..n+i are all complete, and it holds section n+i's name and values |
| Settings.KeySectionComplete | spk_settings.h:299-330 | a complete key section has a name and six parameters none of which failed to read, and its number fits the lookup key |
| Settings.ResolutionSectionComplete | spk_settings.h:383-394 | a complete resolution section has a name, a number and an EDID number, and its number fits the lookup key |
| Settings.ResolutionScanIsPrefix | spk_settings.h:376-418 | entry i exists iff sections n..n+i are all complete, and it holds section n+i's name, number and EDID number |
| Settings.KeyScanSetsSized | spk_settings.h:299-330 | every scanned set has six values |
| Settings.LoadedKeySetsSized | spk_settings.h:333-356 | after a key load every set, the reserved one included, has six values |
| Settings.KeyScanAtMost99 | spk_settings.h:294-304 | at most 99 key sections can be read (the 11-byte key name truncates Key100) |
| Settings.DefaultsWellFormed | spk_settings.h:69-146 | 3 keyer sets, the first "Key - Current", with ordered ranges; 10 resolutions in three equal lists |
| Settings.SettingsStore.constructor | spk_settings.h:41-45 | no set is being edited and the defaults are loaded |
| Settings.SettingsStore.LoadDefaults | spk_settings.h:47-147 | the network, keyer and resolution defaults, with the editing index untouched |
| Settings.SettingsStore.KeyerParamName | spk_settings.h:149-153 | a name from the list |
| Settings.SettingsStore.KeyerParamSet | spk_settings.h:155-158 | a six-value set |
| Settings.SettingsStore.KeyerSetCount | spk_settings.h:160-163 | the number of sets |
| Settings.SettingsStore.EditingKeyerSetValue | spk_settings.h:165-173 | -1 when the editing index is out of range, else the stored value |
| Settings.SettingsStore.SetEditingKeyerSetValue | spk_settings.h:175-181 | out of range changes nothing; otherwise exactly one entry of one set changes |
| Settings.SettingsStore.ResolutionName | spk_settings.h:183-187 | a name from the list |
| Settings.SettingsStore.ResolutionIndex | spk_settings.h:189-192 | an index from the list |
| Settings.SettingsStore.ResolutionEDIDIndex | spk_settings.h:194-197 | a slot from the list |
| Settings.SettingsStore.ResolutionsCount | spk_settings.h:199-202 | the three lists' common length |
| Settings.SettingsStore.Load | spk_settings.h:204-425 | network replaced only when read whole, with its ports and channels read as integers (see ## Findings); keys replaced by the reserved set plus the scanned sets iff any; resolutions replaced by the scan iff any; success iff any of the three |
| Settings.GetBoolean | spk_settings.h:221 | a boolean lookup yields 1 or 0 by the entry's first character, and the fail value for a missing entry or any other first character |
| Settings.NetworkAsWritten | spk_settings.h:218-283 | the network block as the loader reads it: when read, both ports and all four DMX channels are 0 or 1 |
| Settings.NetworkIntendedReadsNumbers | spk_settings.h:218-283 | read as intended, the block is read exactly when DHCP is a boolean, every address reads and every number is present and not the fail value; the ports and channels are then the entries' numbers |
| Settings.PortsReadAsBooleans | spk_settings.h:227-243 | as written, a controller port of 8000 fails the whole block and a send port of 10000 is kept as 1; as intended, both are kept |
| Settings.SettingsStore.LoadKeys | spk_settings.h:287-364 | the key loop's result as stated for Load |
| Settings.SettingsStore.ReadKeySection | spk_settings.h:299-330 | a read is OK iff the section is complete, with its name and six values |
| Settings.SettingsStore.AddKeySet | spk_settings.h:333-356 | the first addition clears and inserts the reserved set; every addition appends |
| Settings.SettingsStore.ReadResolution | spk_settings.h:378-394 | a read is OK iff the section is complete, and the scan continues from the next section |
| Settings.SettingsStore.AddResolution | spk_settings.h:397-411 | the first addition clears the three lists; every addition appends to all three |
| Settings.SettingsStore.LoadResolutions | spk_settings.h:366-419 | the resolution loop's result as stated for Load |
| RotaryEncoder.Detents | spk_mRotaryEncoder.h:51-57 | the count divided by 2 truncated toward zero |
| RotaryEncoder.DetentsSymmetric | spk_mRotaryEncoder.h:51-57 | truncation is symmetric in the sign of the count |
| RotaryEncoder.DetentsTruncate | spk_mRotaryEncoder.h:51-57 | -1 gives 0, where Euclidean division would give -1 |
| RotaryEncoder.Changes | spk_mRotaryEncoder.h:39-49 | one change per query |
| RotaryEncoder.ChangesTelescope | spk_mRotaryEncoder.h:39-49 | with no presses, the changes sum to the last position minus the first recorded one |
| RotaryEncoder.Encoder.constructor | spk_mRotaryEncoder.h:26-29 | the uninitialised fields are parameters |
| RotaryEncoder.Encoder.Turn | spk_mRotaryEncoder.h:53 | the raw count moves |
| RotaryEncoder.Encoder.GetPos | spk_mRotaryEncoder.h:51-57 | the position in detents |
| RotaryEncoder.Encoder.HasPressed | spk_mRotaryEncoder.h:31-37 | returns the pending flag and clears it |
| RotaryEncoder.Encoder.GetChange | spk_mRotaryEncoder.h:39-49 | (press position if pending, else current) minus the last recorded, then records the current |
| RotaryEncoder.Encoder.OnPress | spk_mRotaryEncoder.h:59-63 | records the position and sets the flag |
| OledBuffer.Overwrite | spk_oled_ssd1305.cpp:78-124 | the buffer length is kept |
| OledBuffer.OverwriteBounds | spk_oled_ssd1305.cpp:78-124 | inside the window the written bytes, elsewhere the old bytes |
| OledBuffer.CharColumns | spk_oled_ssd1305.cpp:90-122 | each character emits at least one column |
| OledBuffer.GlyphColumns | spk_oled_ssd1305.cpp:112-117 | a glyph draws as many columns as its first byte says |
| OledBuffer.Typeset | spk_oled_ssd1305.cpp:86-122 | a message takes at least one column per character; an empty one takes none |
| OledBuffer.Capped | spk_oled_ssd1305.cpp:96-120 | output stops at 128 columns |
| OledBuffer.TextStart | spk_oled_ssd1305.cpp:81-82 | a text row starts on a page boundary and has its 128 columns inside the buffer, whatever the row number |
| OledBuffer.Display.constructor | spk_oled_ssd1305.cpp:25 | a zeroed buffer |
| OledBuffer.Display.ClearBuffer | spk_oled_ssd1305.cpp:30-33 | all 1056 bytes are zero |
| OledBuffer.Display.ClearBufferRow | spk_oled_ssd1305.cpp:40-55 | rows >= 8 change nothing; else bytes row*132 .. row*132+128 (129 bytes) are zeroed and nothing else |
| OledBuffer.Display.HorizLineToBuffer | spk_oled_ssd1305.cpp:57-76 | y >= 64 changes nothing; else bit y mod 8 is set in bytes page*132 .. page*132+128 and every other bit is kept |
| OledBuffer.Display.PutColumns | spk_oled_ssd1305.cpp:113-117 | writes columns until 128 are set |
| OledBuffer.Display.PutCharacter | spk_oled_ssd1305.cpp:88-122 | writes one character's columns and spacing, capped; reports a full row |
| OledBuffer.Display.PutNext | spk_oled_ssd1305.cpp:86-122 | one loop step: the row shows the message typeset so far; a full row already shows the whole capped message |
| OledBuffer.Display.TextToBuffer | spk_oled_ssd1305.cpp:78-124 | the row's first 128 bytes become the capped typeset message; every other byte is unchanged |
| Osc.Int32 | OSC/mbedOSC.cpp:85-90 | a word read as a signed 32-bit value |
| Osc.Int32OfLittleEndian | OSC/mbedOSC.cpp:85-90 | storing and reading a 32-bit value gives it back |
| Osc.LittleEndian | OSC/mbedOSC.cpp:85-90 | the four bytes are the base-256 digits of the value's 32-bit two's-complement form, lowest first |
| Osc.WireBytes | OSC/mbedOSC.cpp:369-380 | an argument goes out as four bytes |
| Osc.PaddedLength | OSC/mbedOSC.cpp:347-352 | the padded length is a multiple of 4 with 1..4 NULs added |
| Osc.Pad | OSC/mbedOSC.cpp:347-352 | the string followed by at least one NUL up to the padded length |
| Osc.ArgBytes | OSC/mbedOSC.cpp:369-380 | four bytes per argument |
| Osc.Encode | OSC/mbedOSC.cpp:329-385 | a packet is padded address + padded ",tags" + 4 bytes per argument, a multiple of 4 long |
| Osc.Segments | OSC/mbedOSC.cpp:229-262 | the address split at '/' has at least one segment |
| Osc.SegmentsSnoc | OSC/mbedOSC.cpp:229-262 | one address character: a non-leading '/' opens a new segment, any other character extends the last |
| Osc.TagsOf | OSC/mbedOSC.cpp:277-297 | at most 2 tags, taken from the characters that are not ',' |
| Osc.TagsSnoc | OSC/mbedOSC.cpp:277-297 | one tag character: a non-comma is kept while fewer than 2 are held |
| Osc.KeepAddressChar | OSC/mbedOSC.cpp:233-258 | stores one address character into its segment row |
| Osc.KeepTag | OSC/mbedOSC.cpp:279-287 | stores one type-tag character |
| Osc.ArgsAt | OSC/mbedOSC.cpp:303-318 | n arguments read from n consecutive 4-byte words |
| Osc.ArgsAtArgBytes | OSC/mbedOSC.cpp:303-318 | reading words back from their wire bytes gives the arguments |
| Osc.DecodeBody | OSC/mbedOSC.cpp:270-318 | at most 2 tags, one argument per tag |
| Osc.Decode | OSC/mbedOSC.cpp:212-319 | a decodable packet has 1..2 segments that fit their rows, at most 2 tags and one argument per tag |
| Osc.DecodeBlocks | OSC/mbedOSC.cpp:229-297 | a decodable packet holds a terminated address and a terminated tag block |
| Osc.DecodeFrom | OSC/mbedOSC.cpp:212-319 | decoding reads tags from the block after the address and arguments from the block after the tags |
| Osc.SegmentsOfAddress | OSC/mbedOSC.cpp:229-265 | the sent address of 1..2 '/'-prefixed segments decodes to the segments without '/' |
| Osc.DecodeAddress | OSC/mbedOSC.cpp:229-268 | a packet that starts with a padded address decodes to that address's segments, with the tags read from the end of the padding |
| Osc.DecodeTagsAndArgs | OSC/mbedOSC.cpp:270-318 | the padded ",tags" block and argument bytes decode to the tags and arguments |
| Osc.RoundTrip | OSC/mbedOSC.cpp:212-385 | decoding what sendOsc emits recovers the segments without '/', the tags and the arguments |
| Osc.ScanAsWritten | OSC/mbedOSC.cpp:229-262 | the as-written alignment scan ends on a 4-byte boundary |
| Osc.ScanAsWrittenAligned | OSC/mbedOSC.cpp:229-262 | with no '/' at a block start, the as-written scan ends after the terminator's block |
| Osc.DecodeAsWritten | OSC/mbedOSC.cpp:212-319 | the as-written decoder yields 1..2 fitting segments |
| Osc.DecodeAsWrittenAgrees | OSC/mbedOSC.cpp:212-319 | with no '/' at a block start the as-written decoder equals the corrected one |
| Osc.ScanSlashAtFour | OSC/mbedOSC.cpp:229-262 | "/abc/def" ends the as-written scan at 8 instead of 12 |
| Osc.SlashAtBlockStartMisaligns | OSC/mbedOSC.cpp:229-318 | "/abc/def" with one 'i' argument decodes correctly when corrected and loses the tag and argument as written |
| Osc.Slot | OSC/mbedOSC.cpp:57-61 | indices below 2 are kept and above 2 become 1 |
| Osc.ArgCount | OSC/mbedOSC.cpp:134-135 | up to 2 types are counted; more collapse to 1 |
| Osc.ThreeTypesKeepOne | OSC/mbedOSC.cpp:134-135 | three types keep one argument |
| Osc.Taken | OSC/mbedOSC.cpp:138-151 | values consumed never exceed the types |
| Osc.Assigned | OSC/mbedOSC.cpp:138-151 | one slot per type |
| Osc.AssignArgs | OSC/mbedOSC.cpp:138-151 | the first count type tags and arguments are set from the types and values; the rest are kept |
| Osc.AssignedAt | OSC/mbedOSC.cpp:142-149 | an 'i' or 'f' type takes the next value; any other type keeps the slot |
| Osc.AssignedInOrder | OSC/mbedOSC.cpp:138-151 | with only 'i'/'f' types, the arguments are the values in order |
| Osc.OscMessage.constructor | OSC/mbedOSC.cpp:9-12 | an empty message |
| Osc.OscMessage.GetAddress | OSC/mbedOSC.cpp:57-61 | indices above 2 read slot 1 |
| Osc.OscMessage.GetTopAddress | OSC/mbedOSC.cpp:65-69 | slot 0 |
| Osc.OscMessage.GetSubAddress | OSC/mbedOSC.cpp:72-76 | slot 1 |
| Osc.OscMessage.GetTypeTag | OSC/mbedOSC.cpp:79-82 | indices above 2 read slot 1 |
| Osc.OscMessage.GetArgInt | OSC/mbedOSC.cpp:85-90 | the argument read as a signed 32-bit integer |
| Osc.OscMessage.SetTopAddress | OSC/mbedOSC.cpp:101-105 | one address; the sub-address is cleared |
| Osc.OscMessage.SetSubAddress | OSC/mbedOSC.cpp:108-111 | two addresses; the top is kept |
| Osc.OscMessage.SetAddress | OSC/mbedOSC.cpp:115-119 | two addresses, both set |
| Osc.OscMessage.SetAddressAt | OSC/mbedOSC.cpp:122-126 | the clamped slot is set and the count is slot + 1 |
| Osc.OscMessage.SetArgs | OSC/mbedOSC.cpp:130-153 | argNum is the clamped type count; that many tags and arguments are set |
| Osc.OscMessage.Addresses | OSC/mbedOSC.cpp:341-345 | the addressNum addresses in order |
| Osc.Put | OSC/mbedOSC.cpp:343-380 | appends bytes to the send buffer |
| Osc.PutAddresses | OSC/mbedOSC.cpp:338-352 | the buffer starts with the padded concatenated address |
| Osc.PutTags | OSC/mbedOSC.cpp:356-367 | appends ',' + tags padded to 4 bytes |
| Osc.PutArgs | OSC/mbedOSC.cpp:369-380 | appends each argument's bytes in reverse (big-endian) order |
| Osc.OscClass.constructor | OSC/mbedOSC.cpp:165-169 | the receiver message is set and no message is new |
| Osc.OscClass.SetReceiveMessage | OSC/mbedOSC.cpp:186-188 | the receiver message is replaced |
| Osc.OscClass.GetMessage | OSC/mbedOSC.cpp:323-326 | returns the receiver message and clears the new flag |
| Osc.OscClass.SendOsc | OSC/mbedOSC.cpp:329-385 | sends exactly the encoded packet of the message's addresses, tags and arguments |
| Osc.OscClass.ScanAddress | OSC/mbedOSC.cpp:229-266 | corrected scan (see ## Findings): the address rows are the segments, and the tags start at the next 4-byte boundary after the terminator |
| Osc.OscClass.ScanTags | OSC/mbedOSC.cpp:270-299 | the tags are the first 2 non-commas, and the arguments start at the boundary after the tag terminator |
| Osc.OscClass.ReadWord | OSC/mbedOSC.cpp:306-316 | reads one argument's four bytes reversed |
| Osc.OscClass.ReadArgs | OSC/mbedOSC.cpp:301-318 | reads one word per tag |
| Osc.OscClass.Parse | OSC/mbedOSC.cpp:212-318 | with the corrected scan (see ## Findings), the scanned message is the decoding of the buffer |
| Osc.OscClass.DecodePacket | OSC/mbedOSC.cpp:212-319 | with the corrected scan (see ## Findings), the receiver message holds the decoded segments, tags and arguments; slots not written keep their old contents |
| Osc.OscClass.Receive | OSC/mbedOSC.cpp:197 | the datagram overwrites the start of the receive buffer |
| Osc.OscClass.OnReadable | OSC/mbedOSC.cpp:190-207 | an empty datagram changes nothing; a non-empty one is decoded and flags a new message |

## Left out

- Hardware is out of scope: analog inputs, median filters, tap buttons, the OLED's SPI transfer, LEDs, serial ports, UDP sockets, DMX and ArtNet drivers. Their values are parameters, and their effects are recorded in logs (`requests`, `sent`, `outbox`, `events`).
- Time is out of scope: the 100 ms / 30 ms acknowledgement wait, the 0.25 s error-signal timeout, command periods and the housekeeping timer. The characters that arrive within the wait are a parameter, and the timer's firing is a boolean.
- `readCommand`, `setResolution`, `setHDCPOn`, `resetCommandPeriods`, `increaseCommandPeriods`, `getProcessorType` and `millisSinceLastCommandSent` are called by main.cpp but are not defined in this snapshot of spk_tvone_mbed.cpp. `TVOneDevice` gives them abstract contracts.
- main.cpp uses a menu API (`SPKMenuItem`, `clearMenuItems`, `selectedItem`) that is not the one in spk_utils.h. `IndexMenu` models spk_utils.h as written. main.cpp's menu selections are modelled as integer indexes and payloads.
- Status texts, the debug port, `snprintf` formatting and `characterToBuffer`, `imageToBuffer` and `sendBuffer` are not modelled. `Notice` records only which notice was posted.
- `uploadToProcessor`, `setCustomResolutions`, the custom resolution uploads, `troubleshootingMenuResetHandler`, `processArtNetIn` (status text only) and the menu-building functions are not modelled.
- Floating point is modelled as exact `real` arithmetic. Rounding of `float` and `double` is not modelled.
- FadeMath.ResolvePercents: the truncation bound is stated only for non-negative levels; out-of-range OSC input gives negative levels.
- MixController.Controller.MixPass: requires the Blend divisor to be non-zero. OSC input is assigned unclamped, and a zero divisor has no defined integer conversion in C.
- MixController.Controller.MixPass: its contract states only the mode hand-over. The controls, the fade sends and the network output are stated by ReadControls, SendPercents and NetworkOut, which it calls in order.
- MixController.Controller.Housekeeping: its contract states only the one-way latches and the mode hand-over. The reconciliation and source handling it runs are stated by CheckMixStatus and HandleSources.
- MixController.Controller.LoopPass: its contract is the conjunction of MixPass's and Housekeeping's. It does not restate their parts.
- MixController.Controller.HandleSources: the "new latch ==> success" guarantee is stated only for the A latch. The B latch can be set while the later A routing fails.
- OledBuffer: the font table is a parameter (`ValidFont`), not a transcription of spk_oled_gfx.h.
- OledBuffer.Display.TextToBuffer requires row >= 0 because the source does not check negative rows. ClearBufferRow and HorizLineToBuffer require the same.
- Osc.OscClass.DecodePacket decodes with the corrected address scan; the as-written scan is Osc.ScanAsWritten/Osc.DecodeAsWritten, which agree with it when no '/' starts a 4-byte block.
- Osc.OscClass.DecodePacket requires a buffer that `Decode` accepts. The source's behaviour is undefined otherwise: an address with no terminator within 256 bytes, a third address segment (written to `address[2]`), a segment longer than its 16-byte row, or tags or arguments past the buffer.
- Osc.OscMessage.SetAddressAt excludes index 2; the source's clamp lets it write address[2], past the 2-element array.
- Settings.SettingsStore.Load reads the OSC ports and the DMX channels as integers, which is the intended reading. As written, the loader reads them with the boolean lookup, so it stores only 0 or 1 and fails the whole network block for a port such as 8000. That reading is Settings.NetworkAsWritten (see ## Findings).
- Osc.OscMessage.GetAddress and Osc.OscMessage.GetTypeTag exclude index 2. The source's clamp lets index 2 read past the 2-element arrays.
- Osc.OscMessage.GetArgInt requires index < argNum. The source's clamp to argNum reads one slot past the last argument.
- Osc.OscMessage.SetArgs stores argument values. The source stores pointers to the caller's variables, so aliasing is not modelled.
- MixController.Controller.NetworkOut records an OSC send as its two values. It does not build the message of main.cpp:278-280. That message's segments have no leading '/', so `sendOsc` concatenates them to `dvimxrxFadeFadeUp`. Osc.RoundTrip covers only '/'-prefixed segments.
- `getArgFloat` reads an 8-byte `double` from a 4-byte argument and is not modelled. `MenuRules.OscIn` takes the first float argument as a parameter.
- Osc.OscClass.SendOsc requires the packet to fit the 128-byte send buffer. The source writes past it otherwise.
- Settings: the INI parser and file system are out of scope. The dictionary is a value (`IniDict`), and the network block is given entry by entry, each entry as its text and the number an integer lookup reads from it. Addresses are given as read. The INI parser itself is not part of this model; its boolean lookup is taken to read the first character. Number-to-text conversion of section names is replaced by section numbers, with the key-name buffer limits as `KeyLookupFits`/`ResolutionLookupFits`.
- RotaryEncoder.Encoder.constructor: the quadrature decoder is replaced by the raw count as a field that `Turn` sets. Interrupt timing is not modelled.

## Findings

| source | as written | input that shows it | evidently intended | confidence | as-written member | corrected member |
|---|---|---|---|---|---|---|
| spk_settings.h:227-260 | the two OSC ports and four DMX channels are read with `iniparser_getboolean` | `OSC:ControllerPort = 8000` fails the whole network block; `OSC:SendPort = 10000` is stored as port 1 when the other entries read | read them with the integer lookup, as the keyer and resolution numbers are | not executed | Settings.PortsReadAsBooleans | Settings.NetworkIntendedReadsNumbers |
| spk_tvone_mbed.cpp:80-93 | each reply character is stored at `ack[i]` and `i` incremented with no bound once 20 have arrived | a reply of 21 or more characters arriving before the 30 ms clear period ends | stop storing after the 20 slots of `ack` | not executed | TVOneLink.AckOverflowExample | TVOneLink.ReceiveAck |
| OSC/mbedOSC.cpp:246-262 | the end of a 4-byte block is only checked on characters other than '/', so a '/' at a block start delays the tag start | address "/abc/def" with type tag "i" and one argument: the tags are looked for at offset 8 (the address's padding) instead of 12 | tags start at the first 4-byte boundary after the address terminator | not executed | Osc.SlashAtBlockStartMisaligns | Osc.OscClass.ScanAddress |
