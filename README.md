# JIG client core, modelled in Dafny

The JIG client (`main.c`) runs on a test jig with an HDMI panel. At start-up it
walks the UI's table of test items. For each item it builds a request
message, asks the device checker (`device_check`) to test the device, and
paints the result on the panel: a green or red colour for pass or fail, and
the checker's response text. It then blinks panel slot 0 once a second as a
heartbeat, forever. This project models the logic of that file and proves
what it does.

| file | module | what it models |
|---|---|---|
| `ctext.dfy` | `CText` | the C library text pieces used: `%d`, `%0Nd`, `atoi`, and reading a NUL-terminated string out of a buffer |
| `protocol.dfy` | `Protocol` | the request encoder `sprintf("@C%04d%02d%03dI0010#", ...)`, and a decoder for its fixed offsets as its partner |
| `panel.dfy` | `Panel` | the calls into the UI library and the device checker, kept as an ordered event trace, and projections of that trace |
| `status.dfy` | `Status` | per item: the pass/fail verdict, and the choice between raw and re-rendered response text |
| `client.dfy` | `Client` | `client_init_data`: the start-up pass over the item array, as a method proved against a trace specification |
| `heartbeat.dfy` | `Heartbeat` | `run_interval_check` (a timer class) and `client_alive_display` (a class with the two function statics), specified by a pure state machine |
| `caseconv.dfy` | `CaseConv` | `tolowerstr` / `toupperstr`: in-place case conversion of a C string in an array |

Calls to code outside the model appear in the trace as events:
- `Probe(msg)` is a call to `device_check`.
- `SetColour(slot, colour)` is a call to `ui_set_ritem`.
- `SetText(slot, text)` is a call to `ui_set_sitem`.
- `Flush` is a call to `ui_update`.

What the device checker answers comes in as data: `answers[i]` is the status and the six response bytes that the i-th `device_check` call returns. The clock comes in as a `now` parameter.

**Message length.** For ids that fit their fields, the encoder writes
2 + 4 + 2 + 3 + 6 = 17 characters. The layout comment above the encoder and
`PROTOCOL_RX_BYTES` both say 19 (main.c:117-120). The model follows the code
(`Protocol.MESSAGE_LENGTH` is 17, and `EncodeLayout` proves it).

**Ids out of range.** The encoder checks no widths. The model encodes every
integer the way C's `printf` does: the sign counts towards the width, and
nothing is cut: `ZeroPadded` proves that the digits still spell the whole id. `RoundTripIffInRange` proves that a request survives
encode-then-decode exactly when its ids fit their fields. An id that does not
fit spills over its field, and the message no longer decodes.

## Model

| member | source | states |
|---|---|---|
| CText.Render | main.c:145 | `%d` of any int: non-empty, starts with '-' exactly for a negative number, and the digits after the optional sign spell the number's magnitude |
| CText.RenderCanonical | main.c:145 | `%d` prints canonical decimal: no '+', "0" exactly for zero, no leading zero after the optional '-' |
| CText.Atoi | main.c:145 | `atoi` yields a negative number only when the first non-space character is '-', and reads a plain digit string as its decimal value |
| CText.Digits | main.c:145 | `%d` of a non-negative number is a non-empty digit string that spells the number and has no leading zero |
| CText.DigitsLength | main.c:145 | a number prints in at most w digits exactly when it is below 10^w |
| CText.DigitsOfValue | main.c:145 | re-printing the value of a digit run never takes more digits than the run had (or one, for an empty run) |
| CText.LeadingDigits | main.c:145 | `atoi`'s digit run is the longest digit prefix: all digits, a prefix of the input, and followed by a non-digit or the end |
| CText.AtoiRender | main.c:145 | `atoi` reads back exactly the number `%d` printed, for every int |
| CText.CStr | main.c:147-148 | the string read from a buffer is the buffer's prefix before the first NUL, contains no NUL, and is followed by the NUL when shorter than the buffer |
| CText.CStrOfTerminated | main.c:134-135 | a buffer holding a NUL-free text followed by a NUL (or ending) holds exactly that string |
| CText.Fixed | main.c:131-133 | a fixed-width field has exactly w characters, all digits |
| CText.PadNatIsFixed | main.c:131-133 | zero-padding a number below 10^w to width w gives its w-digit field |
| CText.ZeroPadded | main.c:131-133 | `%0wd` as C prints it: at least w characters, '-' first exactly for a negative number, then digits only, and those digits spell the number's magnitude whatever its width (nothing is cut) |
| CText.ValueZerosPrefix | main.c:131-133 | the zeros `%0wd` pads with do not change the number the digits spell |
| CText.ZeroPaddedField | main.c:131-133 | `%0wd` never prints fewer than w characters; it prints exactly w digits iff 0 <= n < 10^w, and then it prints the w-digit field of n |
| CText.ValueOfFixed | main.c:131-133 | reading a w-digit field back gives the number written into it, for every n below 10^w |
| CText.FixedOfValue | main.c:131-133 | writing back the value of any digit field of width w reproduces the field |
| Protocol.Encode | main.c:131-133 | the `sprintf` of the request, for any ids: at least 17 characters, starting with "@C" and ending with "I0010#" (EncodeLayout gives its exact shape for ids in range; for any ids ZeroPadded states that each field spells its id) |
| Protocol.Decode | main.c:131-133 | whatever the decoder accepts is 17 characters long and starts with '@','C' |
| Protocol.EncodeLayout | main.c:131-133 | for ids that fit, the message is '@','C', the 4-digit ui id, the 2-digit group id, the 3-digit device id and "I0010#", 17 characters in all |
| Protocol.DecodeLayout | main.c:131-133 | a message with that layout decodes to the values of its three digit fields |
| Protocol.DecodeEncode | main.c:131-133 | decoding the message of in-range ids gives the ids back |
| Protocol.EncodeDecode | main.c:131-133 | everything the decoder accepts has in-range ids and re-encodes to the same message |
| Protocol.RoundTripIffInRange | main.c:131-133 | encode-then-decode is the identity exactly for in-range ids; for any other ids the message does not decode |
| Status.KeepsRawText | main.c:143-144 | an HDMI item and the Ethernet link check (Ethernet, device 1) keep their raw text; every other group is re-rendered, and for any device other than 1 only HDMI items keep theirs |
| Status.Reformat | main.c:145 | the re-rendered text is non-empty, and `atoi` of it is `atoi` of the response: the number shown is the number read |
| Status.DisplayText | main.c:142-148 | an HDMI item, or the Ethernet link check (device 1), shows the raw response; every other item shows `%d` of `atoi` of it; the text is at most 6 characters, so it fits the 7-byte `resp` buffer |
| Status.Verdict | main.c:137-140 | green exactly when the status is non-zero, red exactly when it is zero |
| Status.ReformatCanonical | main.c:145 | the re-rendered text is canonical: non-empty, no '+', "0" exactly for zero, no leading zero after the optional '-' |
| Status.ReformatIdempotent | main.c:145 | re-rendering the re-rendered text changes nothing |
| Status.ReformatLength | main.c:145 | the re-rendered text is no longer than the response (one character for an empty response) |
| Status.ReformatLeadingZeros | main.c:143-145 | "007" is shown as "7" |
| Status.ReformatNoDigits | main.c:143-145 | "abc" is shown as "0" |
| Status.ReformatNegative | main.c:143-145 | "-12" is shown as "-12" |
| Client.BlockEvents | main.c:135-148 | the calls for one item never include a panel flush |
| Client.Blocks | main.c:129-149 | the calls of the loop body, over all items, never include a panel flush |
| Client.ItemCalls | main.c:130-148 | one loop iteration makes the probe with the encoded request, the verdict colour unless the item is info-only, then the display text |
| Client.InitData | main.c:123-151 | the pass over the item array makes exactly the calls of `InitTrace`: a flush, each item's calls in index order, a flush |
| Client.BlockProjections | main.c:135-148 | one item gets one probe with its message, one text call with its text, and one colour call with its verdict unless it is info-only |
| Client.BlocksProbes | main.c:129-135 | the probes are one per item, in index order, each with that item's message |
| Client.BlocksTexts | main.c:147-148 | the text calls are one per item, in index order, each with that item's slot and text |
| Client.BlocksAbsentSlot | main.c:137-148 | a slot that no item has gets no text call and no colour call |
| Client.BlocksSlotOnce | main.c:129-149 | with distinct slots, each item's slot gets one text call, and one colour call unless the item is info-only |
| Client.ColoursInOrder | main.c:137-140 | the colour calls are exactly the non-info items' (slot, verdict) pairs, in index order |
| Client.FlushesAddNothing | main.c:128-150 | the two bracketing flushes change no projection of the trace and are its only flushes |
| Client.InitPass | main.c:128-150 | the whole pass: it starts and ends with a flush and has no other flush; probe i carries item i's message; text call i carries item i's slot and display text; the colours are the non-info verdicts |
| Client.EachSlotOnce | main.c:129-149 | with distinct ui ids, each item's slot gets exactly one text call, and one colour call if it is not info-only, none if it is |
| Client.NumericPassScenario | main.c:137-148 | a passing numeric item answering "003" gets its probe, green, and the text "3" |
| Status.ReformatThreeDigits | main.c:145 | "003" is shown as "3" |
| Client.HdmiFailScenario | main.c:137-148 | a failing HDMI item gets red and its "FAIL" text unchanged |
| Client.EthernetLinkScenario | main.c:143-148 | the Ethernet link check keeps its "PASS" text unchanged |
| Heartbeat.DiffTime | main.c:96-97 | the `difftime` expression, scaled to microseconds, is the time elapsed since the stamp less interval x 1000 |
| Heartbeat.Due | main.c:94-99 | a non-zero interval is due exactly when more than interval x 1000 microseconds have passed since the stamp; a zero interval is always due |
| Heartbeat.IntervalTimer.constructor | main.c:165 | the static timer starts at zero |
| Heartbeat.IntervalTimer.Check | main.c:87-110 | `run_interval_check` answers whether the interval is due, restarts it from `now` when it answers yes, and otherwise leaves the stamp alone |
| Heartbeat.AliveDisplay.constructor | main.c:165-166 | both statics start zeroed, and the timer is a new object owned by this display alone |
| Heartbeat.Step | main.c:168-174 | one call of `client_alive_display`: `onoff` flips exactly when the call makes UI calls, the stamp becomes `now` exactly then, and at most two calls are made |
| Heartbeat.Run | main.c:202-206 | over successive calls the stamp is the initial one or one of the clock readings, and at most two UI calls are made per turn |
| Heartbeat.AliveDisplay.Tick | main.c:163-175 | one call of `client_alive_display` updates the statics and makes the calls that `Step` gives |
| Heartbeat.AliveDisplay.Ticks | main.c:202-206 | the first turns of the main loop update the statics and make the calls that `Run` gives |
| Heartbeat.StepFires | main.c:168-174 | a call fires exactly when more than one second has passed since the last firing; firing restarts the timer and flips `onoff`; a call that does not fire changes nothing and makes no call |
| Heartbeat.FirstTickFires | main.c:165-173 | from zeroed statics, the first call with a real clock fires, paints the background colour and flushes |
| Heartbeat.StepProjections | main.c:168-174 | a call paints slot 0 at most once (green if `onoff` was set, background otherwise), flushes only when `onoff` turns on, and draws nothing else |
| Heartbeat.RunBlinks | main.c:166-171 | over any run of calls, the paints alternate starting from the initial `onoff`, and after f paints `onoff` has flipped f times |
| Heartbeat.RunFlushes | main.c:169-173 | after f paints the panel has been flushed f / 2 times if `onoff` started set and (f + 1) / 2 times if not; no text or probe is ever made |
| Heartbeat.StartBlinks | main.c:165-173 | from zeroed statics the paints go background, green, background, ..., and there have been (f + 1) / 2 flushes after f paints |
| CaseConv.ToLower | main.c:74 | `tolower` maps 'A'..'Z' to 'a'..'z' by +32 and leaves every other character alone |
| CaseConv.ToUpper | main.c:83 | `toupper` maps 'a'..'z' to 'A'..'Z' by -32 and leaves every other character alone |
| CaseConv.LowerStr | main.c:69-75 | lower-casing a string keeps its length and lower-cases each character in place |
| CaseConv.UpperStr | main.c:78-84 | upper-casing a string keeps its length and upper-cases each character in place |
| CaseConv.ToLowerStr | main.c:69-75 | `tolowerstr` lower-cases the C string in the array in place and leaves its NUL and everything after it unchanged; the string read back is the lower-cased string |
| CaseConv.ToUpperStr | main.c:78-84 | `toupperstr` upper-cases the C string in the array in place and leaves its NUL and everything after it unchanged; the string read back is the upper-cased string |
| CaseConv.LowerKeepsCStr | main.c:71-74 | lower-casing never writes a NUL, so `strlen` of the result is `strlen` of the input |
| CaseConv.UpperKeepsCStr | main.c:80-83 | upper-casing never writes a NUL, so `strlen` of the result is `strlen` of the input |
| CaseConv.LowerIdempotent | main.c:69-75 | lower-casing twice is lower-casing once |
| CaseConv.UpperIdempotent | main.c:78-84 | upper-casing twice is upper-casing once |
| CaseConv.UpperOfLower | main.c:69-84 | upper-casing after lower-casing is plain upper-casing |
| CaseConv.LowerOfUpper | main.c:69-84 | lower-casing after upper-casing is plain lower-casing |
| CaseConv.LowerStrShape | main.c:69-75 | a lower-cased string has no upper-case letter, and a character stays the same exactly when it was not an upper-case letter |

## Left out

- The UI library and the framebuffer (`fb_init`, `ui_init`, `ui_update`, `ui_set_ritem`, `ui_set_sitem`) are foreign code. Their calls appear only as trace events, without the `pfb`/`pui` handles or the `-1` arguments.
- `device_check` and `device_setup` probe hardware. The i-th `device_check` result is the input `answers[i]`, and `device_setup` is not modelled.
- `client_setup` and its `exit(1)` paths (main.c:154-160) are process control, not logic.
- The `nlp_init` / MAC broadcast block in `main` (main.c:193-200) is network I/O.
- `gettimeofday` and `usleep` are replaced by a `now` parameter. The endless `while (1)` loop is modelled only for finitely many turns (`AliveDisplay.Ticks`).
- Heartbeat.DiffTime: the `double` arithmetic of `run_interval_check` is exact real arithmetic here. Floating-point rounding of very large second counts is not modelled.
- The panel's background colour `p->pui->bc.uint` comes from the UI configuration. It is the abstract colour `Background`.
- `eGROUP_HDMI` and `eGROUP_ETHERNET` are defined in `lib_dev_check.h`, which is not part of this model. They are constants with unspecified values, and no proof depends on their values.
- The response buffer: `memset` clears only the first 6 of the 7 bytes of `resp` (main.c:134). The model reads the response as its 6 bytes and treats the 7th as a NUL. A checker that fills all 6 bytes without a NUL therefore gets the 6 bytes as its text here.
- Protocol.Encode: ids are mathematical integers. 32-bit `int` limits are not modelled. For out-of-range ids the model yields the longer text that `printf` writes, and does not model that it overruns the 20-byte `msg` buffer.
- `atoi` overflow cannot arise from the at most 6 characters it is given, so it is not modelled.
- CaseConv.ToLower / CaseConv.ToUpper: only the C locale's ASCII letters change. Locales and negative `char` values passed to `tolower`/`toupper` are not modelled.
- CaseConv.ToLowerStr / CaseConv.ToUpperStr: when the array holds no NUL, C's `strlen` would read past it. The model takes the whole array as the string.
