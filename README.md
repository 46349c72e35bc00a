# Hello Fairy BLE protocol engine, modelled in Dafny

This project models the protocol core of the Hello Fairy Home Assistant
integration: the `HelloFairyAPI` object that drives a battery-powered
Bluetooth fairy-light controller, the constants and effect catalog it relies
on, and the light entity's brightness rescaling, effect reverse lookup and
turn-on/turn-off call order.

- `Wrappers.dfy` — `Option` (Python's `None`) and `Outcome` (return normally
  or raise).
- `Constants.dfy` — opcodes, mode numbers, the `ACK2`/`ACK3` frames and the
  14-entry `EFFECT_PRESETS` catalog kept in dictionary order, with the
  forward lookup (`set_effect`) and the reverse lookup (`effect` property).
- `Frames.dfy` — the sum-mod-256 checksum, the power, colour and preset
  command layouts with big-endian 16-bit fields, a reference reader for
  command frames that the builders are proved against, and the length- and
  byte-dispatched decoding of inbound notifications with a reference status
  encoder as its inverse.
- `Device.dfy` — the six device-state fields as a value, the transport as an
  oracle (`Attempt`: does the connection come up, does the write succeed,
  and during which 0.1 s sleep of the ack wait does an ack arrive), and each
  control operation and the notification handler as a function from the old
  state to the new state, the frames written and the outcome, with lemmas
  about them.
- `Api.dfy` — class `HelloFairyApi` with the mutable fields of the Python
  object, a ghost log of written frames and a ghost count of update-callback
  invocations. `SendCommand` runs the bounded ack-poll loop. Every method is
  proved to produce exactly the state, frame log and outcome of the
  matching function in `Device`.
- `Light.dfy` — `brightness_scale`, the `brightness` and `effect`
  properties, and `async_turn_on`/`async_turn_off` as method sequences over
  the API object.

Behaviours of the code that the model keeps as they are:

- A status notification of 12 bytes or more with any byte 6 other than 1,
  not only 0, is read as power off.
- A power-off notification sets only `state := False`. Mode, colour, HSV,
  preset and brightness keep their values.
- A preset notification is read only from 12 bytes on, although its last
  field is byte 10. It does not clear `hsv`/`color`.
- A colour notification of 12 or 13 bytes has already stored power and mode
  when reading byte 12 or 13 raises `IndexError`. The model returns
  `Fail(IndexOutOfRange)` with those two fields updated.
- An ack is only a flag (`_ack_received`). Any 4-byte notification sets it,
  with no correlation to the command in flight.
- The ack wait makes 51 sleeps of 0.1 s, not 50. After fifty additions of
  0.1 in binary floating point, `elapsed` is still below 5.0.

## Model

| member | source | states |
|---|---|---|
| `Constants.LookupIn` | custom_components/hello_fairy_ble/api.py:300-301 | the lookup is None exactly when no catalog entry has the name; otherwise it returns the id of an entry with that name |
| `Constants.NameForIdIn` | custom_components/hello_fairy_ble/light.py:95-100 | the reverse lookup is None exactly when no entry has the id; otherwise it returns the name of the first entry, in catalog order, with that id |
| `Constants.EffectNames` | custom_components/hello_fairy_ble/api.py:312-314 | the effect list has one name per catalog entry, in catalog order |
| `Constants.IdsAreCatalogIds` | custom_components/hello_fairy_ble/const.py:20-35 | the catalog has 14 entries whose ids, in order, are 41, 56, 57, 8, 17, 18, 50, 20, 40, 39, 46, 47, 48, 54 |
| `Constants.CatalogIdsInPresetRange` | custom_components/hello_fairy_ble/const.py:20-35 | every catalog id lies in 1..58, the range set_preset clamps to |
| `Constants.CatalogIdsDistinct` | custom_components/hello_fairy_ble/const.py:20-35 | no two catalog entries share an id |
| `Constants.CatalogNamesDistinct` | custom_components/hello_fairy_ble/const.py:20-35 | no two catalog entries share a name |
| `Constants.LookupAt` | custom_components/hello_fairy_ble/const.py:20-35 | looking up the name at any catalog index gives the id at that index |
| `Constants.CatalogExamples` | custom_components/hello_fairy_ble/const.py:25-26 | "Fireworks" looks up to 17 and "Xmas" to 18 |
| `Constants.LookupReverse` | custom_components/hello_fairy_ble/const.py:20-35 | the name looks up to the id if and only if the id reverse-looks-up to the name |
| `Constants.AckFrames` | custom_components/hello_fairy_ble/const.py:16-17 | ACK2 and ACK3 are 4 bytes long and end with the sum checksum of their first three bytes; byte 1 is the power and the colour/preset opcode |
| `Constants.EffectNamesSelectable` | custom_components/hello_fairy_ble/api.py:312-314 | every listed effect name is accepted by set_effect and selects the id beside it |
| `Frames.SumConcat` | custom_components/hello_fairy_ble/api.py:97 | the byte sum of a concatenation is the sum of the byte sums |
| `Frames.Checksum` | custom_components/hello_fairy_ble/api.py:95-97 | the checksum lies in 0..255 and is congruent to the byte sum modulo 256 |
| `Frames.ChecksumAppend` | custom_components/hello_fairy_ble/api.py:95-97 | the checksum of a + b is the checksum of a plus the sum of b, modulo 256 |
| `Frames.WithChecksum` | custom_components/hello_fairy_ble/api.py:103-105 | the frame is the command followed by exactly one byte, the command's checksum |
| `Frames.WithChecksumValid` | custom_components/hello_fairy_ble/api.py:103-105 | dropping the last byte of a written frame and recomputing the checksum gives that last byte back |
| `Frames.WithChecksumBytes` | custom_components/hello_fairy_ble/api.py:109-111 | a command of bytes stays a sequence of bytes once the checksum is appended |
| `Frames.BE16` | custom_components/hello_fairy_ble/api.py:159-161 | a big-endian pair of bytes is a value in 0..65535 |
| `Frames.BE16Split` | custom_components/hello_fairy_ble/api.py:223-228 | splitting a 16-bit value into `>> 8` and `& 0xFF` gives two bytes that read back as the value |
| `Frames.CommandLayout` | custom_components/hello_fairy_ble/const.py:10-14 | the prefix, opcode and mode constants are bytes 0, 1 and 3 of the power, colour and preset commands, and byte 2 is the payload length |
| `Frames.ColorCommandBytes` | custom_components/hello_fairy_ble/api.py:218-229 | the colour command of clamped h, s, v consists of bytes |
| `Frames.PresetCommandBytes` | custom_components/hello_fairy_ble/api.py:278-286 | the preset command of an id below 256 and a brightness up to 6553 consists of bytes |
| `Frames.ParseCommand` | custom_components/hello_fairy_ble/api.py:103-111 | a command frame is accepted only if it starts with 0xAA and its last byte is the checksum |
| `Frames.PowerCommandRoundTrip` | custom_components/hello_fairy_ble/api.py:188-189 | the written power frame reads back as the requested power state |
| `Frames.ColorCommandRoundTrip` | custom_components/hello_fairy_ble/api.py:218-231 | the written colour frame of h in 0..359 and s, v in 0..100 reads back as exactly (h, s, v) |
| `Frames.PresetCommandRoundTrip` | custom_components/hello_fairy_ble/api.py:278-288 | the written preset frame of an id in 1..58 and a brightness up to 6553 reads back as exactly that id and brightness |
| `Frames.Decode` | custom_components/hello_fairy_ble/api.py:130-181 | exactly 4 bytes is an ack; other lengths below 12 are ignored; byte 6 not 1 is power off; mode 1 in fewer than 14 bytes raises; mode 1 gives 16-bit H and tenths S and V; mode 2 gives the preset byte and tenths brightness; any other mode is only stored |
| `Frames.DecodeEncodeStatus` | custom_components/hello_fairy_ble/api.py:141-181 | decoding a status notification laid out by the device recovers the power, mode, colour or preset it reports |
| `Frames.DecodeColorExample` | custom_components/hello_fairy_ble/api.py:155-164 | the bytes of H = 45, S = 250 tenths, V = 500 tenths decode to colour (45, 25, 50) |
| `Device.BrightnessOr50` | custom_components/hello_fairy_ble/api.py:276 | `brightness or 50`: a stored non-zero brightness is kept; None and 0 both give 50 |
| `Device.Clamp` | custom_components/hello_fairy_ble/api.py:214-216 | `max(lo, min(hi, x))` lies in lo..hi, keeps values already in range and sends the rest to the nearer end |
| `Device.FirstAck` | custom_components/hello_fairy_ble/api.py:117-119 | the first sleep during which an ack arrives, or None when no ack ever arrives |
| `Device.FirstAckWithin` | custom_components/hello_fairy_ble/api.py:117-121 | an ack arrives within the first n sleeps if and only if the first ack comes before sleep n |
| `Device.SendOutcome` | custom_components/hello_fairy_ble/api.py:99-122 | a send returns normally if and only if it connects, writes and an ack arrives within the 51 sleeps; it times out if and only if it connects and writes but no ack arrives in time |
| `Device.SetPowerShortCircuit` | custom_components/hello_fairy_ble/api.py:185-186 | set_power sends nothing and changes nothing when the state already matches |
| `Device.SetPowerEffect` | custom_components/hello_fairy_ble/api.py:188-199 | otherwise it writes exactly the power frame, raises what the send raises, and after the ack sets the state; turning off also clears brightness, color, hsv, preset and mode; a failed send leaves the state unchanged |
| `Device.SetPowerTwice` | custom_components/hello_fairy_ble/api.py:185-192 | two successful set_power calls with the same argument write at most one frame |
| `Device.EnsurePoweredIsSetPower` | custom_components/hello_fairy_ble/api.py:209-210 | the `if not self.state` guard in front of set_power(True) behaves like set_power(True) alone, with None treated as off |
| `Device.SetColorHsvEffect` | custom_components/hello_fairy_ble/api.py:209-240 | a power-on frame comes first when the light is not on, and a failed power-on stops the call; the colour frame carries h clamped to 0..359 and s, v to 0..100; after the ack the light is on in colour mode with those hsv values, brightness v, no preset and the converted colour |
| `Device.SetColorRgbBlack` | custom_components/hello_fairy_ble/api.py:245-252 | black sets hue 0, saturation 0 and value `brightness or 50` instead of 0, so a successful call never stores brightness 0 |
| `Device.SetBrightnessEffect` | custom_components/hello_fairy_ble/api.py:256-267 | nothing is sent while the light is not on; otherwise the current hue and saturation (white when hsv is None) are re-sent with the clamped level, with no power-on frame, and the level becomes the brightness |
| `Device.SetPresetEffect` | custom_components/hello_fairy_ble/api.py:271-296 | power-on first when the light is not on; the preset frame carries the id clamped to 1..58 and `brightness or 50`; after the ack the light is on in preset mode with that id and brightness and with hsv and color cleared |
| `Device.SetEffectEffect` | custom_components/hello_fairy_ble/api.py:300-304 | an unknown name sends nothing and changes nothing; a known name is set_preset of its id, which the clamp leaves unchanged |
| `Device.FireworksEffect` | custom_components/hello_fairy_ble/api.py:298-302 | with the light on, set_effect("Fireworks") writes exactly the preset frame for id 17 |
| `Device.SetPowerInRange` | custom_components/hello_fairy_ble/api.py:183-199 | set_power keeps every field in range and writes only bytes |
| `Device.SetColorHsvInRange` | custom_components/hello_fairy_ble/api.py:201-240 | set_color_hsv keeps every field in range and writes only bytes |
| `Device.SetPresetInRange` | custom_components/hello_fairy_ble/api.py:269-296 | set_preset keeps every field in range and writes only bytes |
| `Device.ApplyNotificationInRange` | custom_components/hello_fairy_ble/api.py:124-181 | no notification takes a field out of the range a notification can report |
| `Device.ShortNotificationKeepsState` | custom_components/hello_fairy_ble/api.py:130-139 | a notification shorter than 12 bytes leaves every device field unchanged, and it is an ack exactly when it has 4 bytes |
| `Device.OffNotificationOnlyPower` | custom_components/hello_fairy_ble/api.py:143-149 | a power-off notification sets state to False and nothing else |
| `Device.ColorNotification` | custom_components/hello_fairy_ble/api.py:155-168 | a colour notification of 14 bytes or more stores power on, mode 1, the decoded hsv, brightness v and the converted colour, and leaves the preset alone |
| `Device.PresetNotificationKeepsColor` | custom_components/hello_fairy_ble/api.py:172-177 | a preset notification stores power on, mode 2, the preset byte and the tenths brightness, and keeps hsv and color |
| `Device.OtherModeNotification` | custom_components/hello_fairy_ble/api.py:151-153 | a power-on notification with a mode other than 1 or 2 stores the power and the mode only |
| `Api.AckFrame` | custom_components/hello_fairy_ble/const.py:16-17 | the ack the device returns for a command is a 4-byte frame |
| `Api.HelloFairyApi.constructor` | custom_components/hello_fairy_ble/api.py:40-62 | a new object knows nothing about the device, has the ack flag set, has written nothing and lists the catalog's effect names |
| `Api.HelloFairyApi.GetAvailableEffects` | custom_components/hello_fairy_ble/api.py:312-314 | returns one name per catalog entry, each of which set_effect accepts with the id beside it |
| `Api.HelloFairyApi.SendCommand` | custom_components/hello_fairy_ble/api.py:99-122 | the poll loop writes the command plus its checksum, clears the ack flag, and returns normally exactly when an ack arrives within 51 sleeps, raising a timeout otherwise; the device fields do not change |
| `Api.HelloFairyApi.HandleNotification` | custom_components/hello_fairy_ble/api.py:124-181 | the new fields are those the decoder prescribes for the notification; a 4-byte notification sets the ack flag; the update callback runs for everything except ignored lengths and the colour frame that raises |
| `Api.HelloFairyApi.SetPower` | custom_components/hello_fairy_ble/api.py:183-199 | the new fields, the frames written and the outcome are those of the set_power transition; the ack flag is unchanged when nothing was written and otherwise set unless the last write timed out; the update callback runs once per acknowledged frame |
| `Api.HelloFairyApi.SetColorHsv` | custom_components/hello_fairy_ble/api.py:201-240 | the new fields, the frames written and the outcome are those of the set_color_hsv transition; the ack flag is unchanged when nothing was written and otherwise set unless the last write timed out; the update callback runs once per acknowledged frame |
| `Api.HelloFairyApi.SetColorRgb` | custom_components/hello_fairy_ble/api.py:242-252 | the new fields, the frames written and the outcome are those of the set_color_rgb transition; the ack flag is unchanged when nothing was written and otherwise set unless the last write timed out; the update callback runs once per acknowledged frame |
| `Api.HelloFairyApi.SetBrightness` | custom_components/hello_fairy_ble/api.py:254-267 | the new fields, the frames written and the outcome are those of the set_brightness transition; the ack flag is unchanged when nothing was written and otherwise set unless the last write timed out; the update callback runs once per acknowledged frame |
| `Api.HelloFairyApi.SetPreset` | custom_components/hello_fairy_ble/api.py:269-296 | the new fields, the frames written and the outcome are those of the set_preset transition; the ack flag is unchanged when nothing was written and otherwise set unless the last write timed out; the update callback runs once per acknowledged frame |
| `Api.HelloFairyApi.SetEffect` | custom_components/hello_fairy_ble/api.py:298-304 | the new fields, the frames written and the outcome are those of the set_effect transition; the ack flag is unchanged when nothing was written and otherwise set unless the last write timed out; the update callback runs once per acknowledged frame |
| `Light.BrightnessScaleRange` | custom_components/hello_fairy_ble/light.py:25-27 | an input inside the source range is rescaled into the target range |
| `Light.BrightnessScaleMonotone` | custom_components/hello_fairy_ble/light.py:25-27 | the rescaler never decreases as its input grows |
| `Light.BrightnessScaleFloor` | custom_components/hello_fairy_ble/light.py:25-27 | on non-negative inputs, truncating the true quotient is integer floor division |
| `Light.BrightnessScaleEnds` | custom_components/hello_fairy_ble/light.py:25-27 | the ends of a range that starts at 0 map to the ends of the target range |
| `Light.ReportScaleEndpoints` | custom_components/hello_fairy_ble/light.py:71-74 | the reported brightness maps 0 to 0 and 100 to 255 |
| `Light.CommandScaleEndpoints` | custom_components/hello_fairy_ble/light.py:108-111 | the commanded brightness maps 0 to 0 and 255 to 100 |
| `Light.BrightnessProperty` | custom_components/hello_fairy_ble/light.py:68-74 | the property is None exactly when the stored brightness is None, and a stored 0..100 value is reported in 0..255 |
| `Light.Effect` | custom_components/hello_fairy_ble/light.py:91-100 | the in-order search returns None unless the mode is 2 and the preset is non-zero; otherwise it returns the first catalog name with that id, or None; a returned name looks up to the current preset |
| `Light.SetEffectShowsEffect` | custom_components/hello_fairy_ble/light.py:91-100 | after set_effect succeeds on a catalog name, the entity reports that name as its effect |
| `Light.SetColorHidesEffect` | custom_components/hello_fairy_ble/light.py:94 | after set_color_hsv succeeds, the entity reports no effect, and its reported brightness is the clamped v rescaled to 0..255 |
| `Light.BrightnessStep` | custom_components/hello_fairy_ble/light.py:108-112 | set_brightness of the 0..255 value rescaled to 0..100, only when a brightness is given; the API fields, frame log, ack flag and callback count end where that sequence of operations leaves them |
| `Light.ColorStep` | custom_components/hello_fairy_ble/light.py:115-117 | set_color_rgb of the given colour, only when a colour is given; the API fields, frame log, ack flag and callback count end where that sequence of operations leaves them |
| `Light.EffectStep` | custom_components/hello_fairy_ble/light.py:120-122 | set_effect of the given name, only when an effect is given; the API fields, frame log, ack flag and callback count end where that sequence of operations leaves them |
| `Light.ColorThenEffectSteps` | custom_components/hello_fairy_ble/light.py:115-122 | the colour step and then, unless it raised, the effect step; the API fields, frame log, ack flag and callback count end where that sequence of operations leaves them |
| `Light.BrightnessThenRestSteps` | custom_components/hello_fairy_ble/light.py:108-122 | the brightness step and then, unless it raised, the colour and effect steps; the API fields, frame log, ack flag and callback count end where that sequence of operations leaves them |
| `Light.TurnOn` | custom_components/hello_fairy_ble/light.py:102-125 | set_power(True) first, then the brightness, colour and effect steps in that order, stopping at the first raised error; the API fields, frame log, ack flag and callback count end where that sequence of operations leaves them |
| `Light.TurnOff` | custom_components/hello_fairy_ble/light.py:127-130 | turning off is set_power(False); the API fields, frame log, ack flag and callback count end where that sequence of operations leaves them |
| `Light.TurnOnWithoutKeys` | custom_components/hello_fairy_ble/light.py:102-125 | with no keys, turning on is set_power(True) alone |
| `Light.ColorKeepsOn` | custom_components/hello_fairy_ble/api.py:209-237 | a colour command sent while the light is on writes only the colour frame and leaves the light on and in range |
| `Light.BrightnessStageKeepsOn` | custom_components/hello_fairy_ble/light.py:108-112 | the brightness step leaves a light that is on still on and in range |
| `Light.ColorStageKeepsOn` | custom_components/hello_fairy_ble/light.py:115-117 | the colour step leaves a light that is on still on and in range |
| `Light.EffectStageKeepsOn` | custom_components/hello_fairy_ble/light.py:120-122 | the effect step leaves the light on, and after success on a catalog name the entity reports that effect |
| `Light.ColorThenEffectKeepsOn` | custom_components/hello_fairy_ble/light.py:115-122 | the colour and effect steps keep the light on, and a given catalog effect is the one reported |
| `Light.BrightnessThenRestKeepsOn` | custom_components/hello_fairy_ble/light.py:108-122 | the brightness, colour and effect steps keep the light on, and a given catalog effect is the one reported |
| `Light.TurnOnOrder` | custom_components/hello_fairy_ble/light.py:102-125 | when the light was not on, the first frame written is the power-on frame; after success the light is on, and a given catalog effect is the one reported, since it is applied last |
| `Constants.Lookup` | custom_components/hello_fairy_ble/api.py:300-301 | a name found in the catalog gives an id in 1..58; its other properties are `LookupIn`'s and `LookupReverse` |
| `Constants.NameForId` | custom_components/hello_fairy_ble/light.py:95-100 | only an id in 1..58 has a name; its other properties are `NameForIdIn`'s and `LookupReverse` |
| `Frames.PowerCommand` | custom_components/hello_fairy_ble/api.py:188 | the power command; its layout is stated by `CommandLayout` and its wire form by `PowerCommandRoundTrip` |
| `Frames.ColorCommand` | custom_components/hello_fairy_ble/api.py:218-229 | the colour command; its layout is stated by `CommandLayout`, its bytes by `ColorCommandBytes` and its wire form by `ColorCommandRoundTrip` |
| `Frames.PresetCommand` | custom_components/hello_fairy_ble/api.py:278-286 | the preset command; its layout is stated by `CommandLayout`, its bytes by `PresetCommandBytes` and its wire form by `PresetCommandRoundTrip` |
| `Device.AckFlagAfter` | custom_components/hello_fairy_ble/api.py:112-121 | the ack flag after an operation: unchanged if nothing was written, else cleared by the last write and set again unless that write timed out; the methods of `Api.HelloFairyApi` are proved to leave it so |
| `Device.AcksHandled` | custom_components/hello_fairy_ble/api.py:130-135 | one handled ack, and one update callback, per frame written except a last frame that timed out; the methods of `Api.HelloFairyApi` are proved to count so |
| `Device.SetPowerSpec` | custom_components/hello_fairy_ble/api.py:183-199 | writes at most one frame, times out only after writing, and a failure leaves the state unchanged; the rest is stated by `SetPowerShortCircuit`, `SetPowerEffect`, `SetPowerTwice` and `SetPowerInRange` |
| `Device.SetColorHsvSpec` | custom_components/hello_fairy_ble/api.py:201-240 | writes at most two frames, times out only after writing, and a success leaves the light on in colour mode; the rest is stated by `SetColorHsvEffect` and `SetColorHsvInRange` |
| `Device.SetColorRgbSpec` | custom_components/hello_fairy_ble/api.py:242-252 | writes at most two frames, times out only after writing, and a success leaves the light on in colour mode; the black rule is stated by `SetColorRgbBlack` |
| `Device.SetBrightnessSpec` | custom_components/hello_fairy_ble/api.py:254-267 | does nothing unless the light is on, writes at most one frame and times out only after writing; the rest is stated by `SetBrightnessEffect` |
| `Device.SetPresetSpec` | custom_components/hello_fairy_ble/api.py:269-296 | writes at most two frames, times out only after writing, and a success leaves preset mode with hsv and color cleared; the rest is stated by `SetPresetEffect` and `SetPresetInRange` |
| `Device.SetEffectSpec` | custom_components/hello_fairy_ble/api.py:298-304 | an unknown name does nothing, and a timeout comes only after a write; the rest is stated by `SetEffectEffect` and `FireworksEffect` |
| `Device.ApplyNotification` | custom_components/hello_fairy_ble/api.py:141-181 | an ack or an ignored length changes nothing; only a colour notification touches hsv and color, only a preset notification touches the preset, and only those two touch brightness; the rest is stated by the notification lemmas below |
| `Light.BrightnessScale` | custom_components/hello_fairy_ble/light.py:25-27 | `brightness_scale` with the quotient truncated toward zero; its properties are stated by `BrightnessScaleRange`, `BrightnessScaleMonotone`, `BrightnessScaleFloor` and `BrightnessScaleEnds` |
| `Light.EffectOf` | custom_components/hello_fairy_ble/light.py:91-100 | the `effect` property as a function; `Light.Effect`, `SetEffectShowsEffect` and `SetColorHidesEffect` state its behaviour |
| `Light.BrightnessStage` | custom_components/hello_fairy_ble/light.py:108-112 | the brightness step times out only after writing; `BrightnessStageKeepsOn` states the rest |
| `Light.ColorStage` | custom_components/hello_fairy_ble/light.py:115-117 | the colour step times out only after writing; `ColorStageKeepsOn` states the rest |
| `Light.EffectStage` | custom_components/hello_fairy_ble/light.py:120-122 | the effect step times out only after writing; `EffectStageKeepsOn` states the rest |
| `Light.ColorThenEffect` | custom_components/hello_fairy_ble/light.py:115-122 | the colour and effect steps time out only after writing; `ColorThenEffectKeepsOn` states the rest |
| `Light.BrightnessThenRest` | custom_components/hello_fairy_ble/light.py:108-122 | the brightness, colour and effect steps time out only after writing; `BrightnessThenRestKeepsOn` states the rest |
| `Light.TurnOnSpec` | custom_components/hello_fairy_ble/light.py:102-125 | turning on times out only after writing; `TurnOnOrder` and `TurnOnWithoutKeys` state the order and outcome |
| `Light.ChainEffects` | custom_components/hello_fairy_ble/light.py:105-122 | two operations run in a row leave the frame log, the ack flag and the callback count as the chained operation does |

## Left out

- BLE connection management (`_ensure_connected`, `_connect`, `disconnect`, the retrying connector, notification subscription) is foreign library I/O. Connecting and writing are the `connects` and `writes` fields of the `Attempt` oracle, and their failures are abstract errors.
- Real time: the 0.1 s settle delays after power-on are left out, and the floating-point 0.1 s poll clock is replaced by a count of 51 sleeps.
- Concurrency: the only notification the model delivers during the ack wait is an ack. A status notification arriving during the wait, or an ack arriving between the write and the clearing of the flag, is not modelled.
- Floating-point `colorsys` conversions are the uninterpreted `hsvToRgb` and `rgbToHsv` parameters of the object. Only the exact black rule of set_color_rgb is stated.
- Api.HelloFairyApi.SetColorRgb: requires channels in 0..255, the range the entity passes. Other values go through float conversions the model does not interpret.
- Api.HelloFairyApi.SendCommand: requires a command of bytes, so the `ValueError` that `bytes(command)` would raise is not modelled. Every caller's command is proved to consist of bytes. The checksum is appended to a fresh sequence rather than to the caller's list in place, and no caller reads that list afterwards.
- The update callback is a ghost count of invocations. The coordinator's snapshot copy and Home Assistant's state writes are not part of this model.
- `brightness_scale` is modelled over exact rationals truncated toward zero. Python's float division is not modelled; for the 0..100 and 0..255 ranges the entity uses, it gives the same result.
- The `is_on`, `rgb_color` and `effect_list` properties return stored fields unchanged and are not modelled. The `async_request_refresh` at the end of turn-on and turn-off is not modelled either.
- Logging, including the warning for an unknown effect name, is left out. So are `request_status` (an empty method), the `address` property and the characteristic UUIDs.
- coordinator.py only delegates to the API object. config_flow.py, `__init__.py` and number.py are host-framework plumbing. None of them is part of this model.
