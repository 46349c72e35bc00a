/** The device-state snapshot HelloFairyAPI keeps, and what each of its
    operations does to it, as functions of the state before the call and of
    how the transport behaves (custom_components/hello_fairy_ble/api.py).
    The class in module Api implements these step by step. */
module Device {
  import opened Wrappers
  import opened Frames
  import C = Constants

  type Rgb = (int, int, int)
  type Hsv = (int, int, int)

  /** `colorsys.hsv_to_rgb(h / 360, s / 100, v / 100)` scaled by 255 and
      truncated; floating point, so the model leaves it uninterpreted. */
  type HsvToRgb = (int, int, int) -> Rgb
  /** `colorsys.rgb_to_hsv(r / 255, g / 255, b / 255)` scaled to degrees and
      percent and truncated, for a colour that is not black. */
  type RgbToHsv = (int, int, int) -> Hsv

  /** The six device-state fields; `None` is Python's None. */
  datatype DeviceState = DeviceState(
    state: Option<bool>,
    brightness: Option<int>,
    color: Option<Rgb>,
    hsv: Option<Hsv>,
    currentPreset: Option<int>,
    mode: Option<int>)

  /** The state of a freshly constructed API object. */
  const Unknown: DeviceState := DeviceState(None, None, None, None, None, None)

  /** What the fields can hold: values the device can report in a
      notification, or the clamped values the operations store. The bound on
      brightness is what keeps every preset command a sequence of bytes. */
  predicate InRange(d: DeviceState) {
    && (d.brightness.Some? ==> 0 <= d.brightness.value <= 6553)
    && (d.hsv.Some? ==> 0 <= d.hsv.value.0 < 65536 && 0 <= d.hsv.value.1 <= 6553 && 0 <= d.hsv.value.2 <= 6553)
    && (d.currentPreset.Some? ==> 0 <= d.currentPreset.value < 256)
    && (d.mode.Some? ==> 0 <= d.mode.value < 256)
  }

  /** Python's truth test `if not self.state`: None counts as off. */
  predicate IsOn(d: DeviceState) {
    d.state == Some(true)
  }

  /** Python's `self.brightness or 50`: None and 0 both give 50. */
  function BrightnessOr50(b: Option<int>): (r: int)
    ensures b.Some? && b.value != 0 ==> r == b.value
    ensures b.None? || b.value == 0 ==> r == 50
  {
    if b.Some? && b.value != 0 then b.value else 50
  }

  /** Python's `max(lo, min(hi, x))`. */
  function Clamp(x: int, lo: int, hi: int): (r: int)
    requires lo <= hi
    ensures lo <= r <= hi
    ensures lo <= x <= hi ==> r == x
    ensures x < lo ==> r == lo
    ensures x > hi ==> r == hi
  {
    if x < lo then lo else if x > hi then hi else x
  }

  // ---------------------------------------------------------------------
  // The transport and the acknowledgement wait of `_send_command`.

  /** The errors an operation can raise: ConnectionError from connecting, a
      failed GATT write, TimeoutError when no ack comes, and IndexError from
      a colour notification that is too short. */
  datatype Error = ConnectionFailed | WriteFailed | AckTimeout | IndexOutOfRange

  /** How the transport behaves for one `_send_command`: whether the client is
      connected or the connection can be established, whether the write
      succeeds, and, for each 0.1 s sleep of the ack wait, whether the
      notification callback handles an acknowledgement during it. */
  datatype Attempt = Attempt(connects: bool, writes: bool, acks: seq<bool>)

  /** The number of 0.1 s sleeps the ack loop makes before giving up:
      `elapsed += 0.1` in binary floating point is still below 5.0 after
      fifty additions (4.999999999999998), so the loop sleeps a 51st time. */
  const MAX_POLLS: nat := 51

  /** An ack arrives during one of the first n sleeps. */
  ghost predicate AckedWithin(acks: seq<bool>, n: nat) {
    exists i :: 0 <= i < n && i < |acks| && acks[i]
  }

  /** The first sleep during which an ack arrives, if any. */
  function FirstAck(acks: seq<bool>): (r: Option<nat>)
    ensures r.None? <==> forall i :: 0 <= i < |acks| ==> !acks[i]
    ensures r.Some? ==> r.value < |acks| && acks[r.value] && forall i :: 0 <= i < r.value ==> !acks[i]
  {
    if acks == [] then None
    else if acks[0] then Some(0)
    else
      var r := FirstAck(acks[1..]);
      assert forall i :: 1 <= i < |acks| ==> acks[i] == acks[1..][i - 1];
      if r.None? then None else Some(r.value + 1)
  }

  lemma FirstAckWithin(acks: seq<bool>, n: nat)
    ensures AckedWithin(acks, n) <==> FirstAck(acks).Some? && FirstAck(acks).value < n
  {
  }

  /** How `_send_command` ends. */
  function SendOutcome(link: Attempt): (r: Outcome<Error>)
    ensures r.Pass? <==> link.connects && link.writes && AckedWithin(link.acks, MAX_POLLS)
    ensures r == Fail(AckTimeout) <==> link.connects && link.writes && !AckedWithin(link.acks, MAX_POLLS)
  {
    FirstAckWithin(link.acks, MAX_POLLS);
    if !link.connects then Fail(ConnectionFailed)
    else if !link.writes then Fail(WriteFailed)
    else if FirstAck(link.acks).Some? && FirstAck(link.acks).value < MAX_POLLS then Pass
    else Fail(AckTimeout)
  }

  /** The frames the transport receives when `frame` is sent over `link`:
      nothing when connecting or writing fails. */
  function Sent(link: Attempt, frame: seq<int>): seq<seq<int>> {
    if link.connects && link.writes then [frame] else []
  }

  // ---------------------------------------------------------------------
  // The control operations, as state transitions.

  /** The device state after an operation, the frames it wrote, and whether
      it returned or raised. */
  datatype Step = Step(device: DeviceState, frames: seq<seq<int>>, outcome: Outcome<Error>)

  function Nothing(d: DeviceState): Step {
    Step(d, [], Pass)
  }

  /** The ack flag after an operation that started with it at `before`:
      unchanged when nothing was written; otherwise the last write cleared
      it, and it is set again unless that write timed out. */
  function AckFlagAfter(before: bool, st: Step): bool {
    if st.frames == [] then before else st.outcome != Fail(AckTimeout)
  }

  /** How many acks, each followed by one update callback, an operation
      handles: one per frame written, except a last frame that timed out. */
  function AcksHandled(st: Step): int {
    |st.frames| - (if st.outcome == Fail(AckTimeout) then 1 else 0)
  }

  /** The optimistic update of set_power once the ack has come. */
  function PowerUpdate(d: DeviceState, on: bool): DeviceState {
    if on then d.(state := Some(true))
    else DeviceState(Some(false), None, None, None, None, None)
  }

  /** set_power (api.py:183-199). */
  function SetPowerSpec(d: DeviceState, on: bool, link: Attempt): (st: Step)
    ensures |st.frames| <= 1
    ensures st.outcome == Fail(AckTimeout) ==> st.frames != []
    ensures st.outcome.Fail? ==> st.device == d
  {
    if d.state == Some(on) then Nothing(d)
    else
      var o := SendOutcome(link);
      Step(if o.Pass? then PowerUpdate(d, on) else d, Sent(link, WithChecksum(PowerCommand(on))), o)
  }

  /** `if not self.state: await self.set_power(True)`, the first step of
      set_color_hsv and set_preset. */
  function EnsurePowered(d: DeviceState, link: Attempt): Step {
    if IsOn(d) then Nothing(d) else SetPowerSpec(d, true, link)
  }

  /** The optimistic update of set_color_hsv once the ack has come. */
  function ColorUpdate(d: DeviceState, toRgb: HsvToRgb, h: int, s: int, v: int): DeviceState {
    d.(hsv := Some((h, s, v)), brightness := Some(v), mode := Some(C.MODE_COLOR),
       currentPreset := None, color := Some(toRgb(h, s, v)))
  }

  /** set_color_hsv (api.py:201-240): power on if needed, clamp, send. */
  function SetColorHsvSpec(d: DeviceState, toRgb: HsvToRgb, h: int, s: int, v: int,
                           powerLink: Attempt, link: Attempt): (st: Step)
    ensures |st.frames| <= 2
    ensures st.outcome == Fail(AckTimeout) ==> st.frames != []
    ensures st.outcome.Pass? ==> st.device.state == Some(true) && st.device.mode == Some(C.MODE_COLOR)
  {
    var p := EnsurePowered(d, powerLink);
    if p.outcome.Fail? then p
    else
      var h', s', v' := Clamp(h, 0, 359), Clamp(s, 0, 100), Clamp(v, 0, 100);
      var o := SendOutcome(link);
      Step(if o.Pass? then ColorUpdate(p.device, toRgb, h', s', v') else p.device,
           p.frames + Sent(link, WithChecksum(ColorCommand(h', s', v'))), o)
  }

  /** set_color_rgb (api.py:242-252) for channels in 0..255. A black colour
      converts to hue 0 and saturation 0, and its value is replaced by the
      last brightness, or 50. */
  function SetColorRgbSpec(d: DeviceState, toRgb: HsvToRgb, toHsv: RgbToHsv, r: int, g: int, b: int,
                           powerLink: Attempt, link: Attempt): (st: Step)
    requires 0 <= r < 256 && 0 <= g < 256 && 0 <= b < 256
    ensures |st.frames| <= 2
    ensures st.outcome == Fail(AckTimeout) ==> st.frames != []
    ensures st.outcome.Pass? ==> st.device.state == Some(true) && st.device.mode == Some(C.MODE_COLOR)
  {
    var hsv := if r == 0 && g == 0 && b == 0 then (0, 0, BrightnessOr50(d.brightness)) else toHsv(r, g, b);
    SetColorHsvSpec(d, toRgb, hsv.0, hsv.1, hsv.2, powerLink, link)
  }

  /** set_brightness (api.py:254-267). The device is on when it proceeds, so
      set_color_hsv makes no power-on send: `link` is passed for it only to
      fill the parameter. */
  function SetBrightnessSpec(d: DeviceState, toRgb: HsvToRgb, level: int, link: Attempt): (st: Step)
    ensures !IsOn(d) ==> st == Nothing(d)
    ensures |st.frames| <= 1
    ensures st.outcome == Fail(AckTimeout) ==> st.frames != []
  {
    if !IsOn(d) then Nothing(d)
    else
      var l := Clamp(level, 0, 100);
      if d.hsv.Some? then SetColorHsvSpec(d, toRgb, d.hsv.value.0, d.hsv.value.1, l, link, link)
      else SetColorHsvSpec(d, toRgb, 0, 0, l, link, link)
  }

  /** The optimistic update of set_preset once the ack has come. */
  function PresetUpdate(d: DeviceState, preset: int, b: int): DeviceState {
    d.(currentPreset := Some(preset), brightness := Some(b), mode := Some(C.MODE_PRESET),
       color := None, hsv := None)
  }

  /** set_preset (api.py:269-296). */
  function SetPresetSpec(d: DeviceState, preset: int, powerLink: Attempt, link: Attempt): (st: Step)
    ensures |st.frames| <= 2
    ensures st.outcome == Fail(AckTimeout) ==> st.frames != []
    ensures st.outcome.Pass? ==> st.device.mode == Some(C.MODE_PRESET) && st.device.hsv.None? && st.device.color.None?
  {
    var p := EnsurePowered(d, powerLink);
    if p.outcome.Fail? then p
    else
      var id := Clamp(preset, C.MIN_PRESET, C.MAX_PRESET);
      var b := BrightnessOr50(p.device.brightness);
      var o := SendOutcome(link);
      Step(if o.Pass? then PresetUpdate(p.device, id, b) else p.device,
           p.frames + Sent(link, WithChecksum(PresetCommand(id, b))), o)
  }

  /** set_effect (api.py:298-304): unknown names are only logged. */
  function SetEffectSpec(d: DeviceState, name: string, powerLink: Attempt, link: Attempt): (st: Step)
    ensures C.Lookup(name).None? ==> st == Nothing(d)
    ensures st.outcome == Fail(AckTimeout) ==> st.frames != []
  {
    match C.Lookup(name)
    case Some(id) => SetPresetSpec(d, id, powerLink, link)
    case None => Nothing(d)
  }

  // ---------------------------------------------------------------------
  // Notifications (api.py:124-181).

  /** The device-state fields after `_handle_notification` has run on a
      notification. A too-short colour frame has already recorded power and
      mode when reading byte 12 or 13 raises. */
  function ApplyNotification(d: DeviceState, toRgb: HsvToRgb, n: Notification): (r: DeviceState)
    ensures n.Ack? || n.Ignored? ==> r == d
    ensures !n.StatusColor? ==> r.hsv == d.hsv && r.color == d.color
    ensures !n.StatusPreset? ==> r.currentPreset == d.currentPreset
    ensures !n.StatusColor? && !n.StatusPreset? ==> r.brightness == d.brightness
  {
    match n
    case Ack => d
    case Ignored => d
    case StatusOff => d.(state := Some(false))
    case ColorTooShort => d.(state := Some(true), mode := Some(C.MODE_COLOR))
    case StatusColor(h, s, v) =>
      d.(state := Some(true), mode := Some(C.MODE_COLOR), hsv := Some((h, s, v)),
         brightness := Some(v), color := Some(toRgb(h, s, v)))
    case StatusPreset(p, b) =>
      d.(state := Some(true), mode := Some(C.MODE_PRESET), currentPreset := Some(p), brightness := Some(b))
    case StatusOtherMode(m) => d.(state := Some(true), mode := Some(m))
  }

  /** Whether the handler invokes the update callback: everything except an
      ignored frame and the one that raises. */
  predicate Notifies(n: Notification) {
    !n.Ignored? && !n.ColorTooShort?
  }

  // ---------------------------------------------------------------------
  // Properties of the operations.

  predicate FramesAreBytes(fs: seq<seq<int>>) {
    forall i :: 0 <= i < |fs| ==> AllBytes(fs[i])
  }

  /** set_power sends nothing when the state already matches. */
  lemma SetPowerShortCircuit(d: DeviceState, on: bool, link: Attempt)
    requires d.state == Some(on)
    ensures SetPowerSpec(d, on, link) == Nothing(d)
  {
  }

  /** Otherwise it sends exactly the power frame (if the link takes it) and,
      after the ack, records the new power state; turning off forgets
      colour, brightness, preset and mode. */
  lemma SetPowerEffect(d: DeviceState, on: bool, link: Attempt)
    requires d.state != Some(on)
    ensures var st := SetPowerSpec(d, on, link);
      && st.frames == Sent(link, WithChecksum(PowerCommand(on)))
      && (forall i :: 0 <= i < |st.frames| ==> ParseCommand(st.frames[i]) == Some(PowerSet(on)))
      && st.outcome == SendOutcome(link)
      && (st.outcome.Pass? ==> st.device.state == Some(on))
      && (st.outcome.Pass? && !on ==> st.device == DeviceState(Some(false), None, None, None, None, None))
      && (st.outcome.Pass? && on ==> st.device == d.(state := Some(true)))
      && (st.outcome.Fail? ==> st.device == d)
  {
    PowerCommandRoundTrip(on);
  }

  /** Two set_power calls with the same argument send at most one frame when
      the first succeeds: the second finds the state already matching. */
  lemma SetPowerTwice(d: DeviceState, on: bool, l1: Attempt, l2: Attempt)
    requires SetPowerSpec(d, on, l1).outcome.Pass?
    ensures var s1 := SetPowerSpec(d, on, l1);
      SetPowerSpec(s1.device, on, l2) == Nothing(s1.device) && |s1.frames| <= 1
  {
  }

  /** The `if not self.state` guard in front of set_power(True) changes
      nothing: set_power already short-circuits when the light is on. */
  lemma EnsurePoweredIsSetPower(d: DeviceState, link: Attempt)
    ensures EnsurePowered(d, link) == SetPowerSpec(d, true, link)
  {
  }

  /** set_color_hsv: the power-on frame, when one is needed, comes first;
      the colour frame carries the clamped values; after the ack the state
      holds those values in colour mode, with no preset, and is on. */
  lemma SetColorHsvEffect(d: DeviceState, toRgb: HsvToRgb, h: int, s: int, v: int,
                          powerLink: Attempt, link: Attempt)
    ensures var st := SetColorHsvSpec(d, toRgb, h, s, v, powerLink, link);
      var h', s', v' := Clamp(h, 0, 359), Clamp(s, 0, 100), Clamp(v, 0, 100);
      var colorFrame := WithChecksum(ColorCommand(h', s', v'));
      var powerFrames := if IsOn(d) then [] else Sent(powerLink, WithChecksum(PowerCommand(true)));
      var powered := IsOn(d) || SendOutcome(powerLink).Pass?;
      && (powered ==> st.frames == powerFrames + Sent(link, colorFrame) && st.outcome == SendOutcome(link))
      && (!powered ==> st.frames == powerFrames && st.outcome == SendOutcome(powerLink) && st.device == d)
      && ParseCommand(colorFrame) == Some(ColorSet(h', s', v'))
      && (st.outcome.Pass? ==>
            && st.device.state == Some(true)
            && st.device.hsv == Some((h', s', v'))
            && 0 <= h' <= 359 && 0 <= s' <= 100 && 0 <= v' <= 100
            && st.device.brightness == Some(v')
            && st.device.mode == Some(C.MODE_COLOR)
            && st.device.currentPreset == None
            && st.device.color == Some(toRgb(h', s', v')))
  {
    var h', s', v' := Clamp(h, 0, 359), Clamp(s, 0, 100), Clamp(v, 0, 100);
    ColorCommandRoundTrip(h', s', v');
    var p := EnsurePowered(d, powerLink);
    var st := SetColorHsvSpec(d, toRgb, h, s, v, powerLink, link);
    if p.outcome.Fail? {
      assert st == p;
    } else {
      var o := SendOutcome(link);
      assert p.device.state == Some(true);
      assert st == Step(if o.Pass? then ColorUpdate(p.device, toRgb, h', s', v') else p.device,
                        p.frames + Sent(link, WithChecksum(ColorCommand(h', s', v'))), o);
    }
  }

  /** set_color_rgb on black keeps the brightness instead of commanding 0. */
  lemma SetColorRgbBlack(d: DeviceState, toRgb: HsvToRgb, toHsv: RgbToHsv, powerLink: Attempt, link: Attempt)
    requires InRange(d)
    ensures SetColorRgbSpec(d, toRgb, toHsv, 0, 0, 0, powerLink, link)
         == SetColorHsvSpec(d, toRgb, 0, 0, BrightnessOr50(d.brightness), powerLink, link)
    ensures var st := SetColorRgbSpec(d, toRgb, toHsv, 0, 0, 0, powerLink, link);
      st.outcome.Pass? ==> (st.device.brightness == Some(Clamp(BrightnessOr50(d.brightness), 0, 100))
                            && st.device.brightness != Some(0))
  {
    SetColorHsvEffect(d, toRgb, 0, 0, BrightnessOr50(d.brightness), powerLink, link);
  }

  /** set_brightness sends nothing while the light is not on; otherwise it
      re-sends the current hue and saturation (white when there is none)
      with the clamped level, and never needs a power-on frame. */
  lemma SetBrightnessEffect(d: DeviceState, toRgb: HsvToRgb, level: int, link: Attempt)
    ensures !IsOn(d) ==> SetBrightnessSpec(d, toRgb, level, link) == Nothing(d)
    ensures IsOn(d) ==>
      var hs := if d.hsv.Some? then (d.hsv.value.0, d.hsv.value.1) else (0, 0);
      var l := Clamp(level, 0, 100);
      var st := SetBrightnessSpec(d, toRgb, level, link);
      && st == SetColorHsvSpec(d, toRgb, hs.0, hs.1, l, link, link)
      && st.frames == Sent(link, WithChecksum(ColorCommand(Clamp(hs.0, 0, 359), Clamp(hs.1, 0, 100), l)))
      && (st.outcome.Pass? ==> st.device.brightness == Some(l))
  {
    if IsOn(d) {
      var hs := if d.hsv.Some? then (d.hsv.value.0, d.hsv.value.1) else (0, 0);
      SetColorHsvEffect(d, toRgb, hs.0, hs.1, Clamp(level, 0, 100), link, link);
    }
  }

  /** set_preset: the id is clamped to 1..58, the brightness is the last one
      or 50, and after the ack the state is in preset mode with no colour. */
  lemma SetPresetEffect(d: DeviceState, preset: int, powerLink: Attempt, link: Attempt)
    requires InRange(d)
    ensures var st := SetPresetSpec(d, preset, powerLink, link);
      var id := Clamp(preset, C.MIN_PRESET, C.MAX_PRESET);
      var b := BrightnessOr50(d.brightness);
      var presetFrame := WithChecksum(PresetCommand(id, b));
      var powerFrames := if IsOn(d) then [] else Sent(powerLink, WithChecksum(PowerCommand(true)));
      var powered := IsOn(d) || SendOutcome(powerLink).Pass?;
      && (powered ==> st.frames == powerFrames + Sent(link, presetFrame) && st.outcome == SendOutcome(link))
      && (!powered ==> st.frames == powerFrames && st.outcome == SendOutcome(powerLink) && st.device == d)
      && ParseCommand(presetFrame) == Some(PresetSet(id, b))
      && (st.outcome.Pass? ==>
            && st.device.state == Some(true)
            && st.device.mode == Some(C.MODE_PRESET)
            && st.device.currentPreset == Some(id)
            && st.device.brightness == Some(b)
            && st.device.hsv == None && st.device.color == None)
  {
    PresetCommandRoundTrip(Clamp(preset, C.MIN_PRESET, C.MAX_PRESET), BrightnessOr50(d.brightness));
  }

  /** set_effect: a catalog name selects its own id unchanged by the clamp;
      any other name sends nothing and changes nothing. */
  lemma SetEffectEffect(d: DeviceState, name: string, powerLink: Attempt, link: Attempt)
    ensures C.Lookup(name).None? ==> SetEffectSpec(d, name, powerLink, link) == Nothing(d)
    ensures C.Lookup(name).Some? ==>
      var id := C.Lookup(name).value;
      && SetEffectSpec(d, name, powerLink, link) == SetPresetSpec(d, id, powerLink, link)
      && Clamp(id, C.MIN_PRESET, C.MAX_PRESET) == id
  {
    if C.Lookup(name).Some? {
      C.CatalogIdsInPresetRange();
    }
  }

  /** "Fireworks" commands preset 17 at the current brightness or 50. */
  lemma FireworksEffect(d: DeviceState, link: Attempt)
    requires IsOn(d)
    ensures SetEffectSpec(d, "Fireworks", link, link).frames
         == Sent(link, WithChecksum(PresetCommand(17, BrightnessOr50(d.brightness))))
  {
    C.CatalogExamples();
    assert SetEffectSpec(d, "Fireworks", link, link) == SetPresetSpec(d, 17, link, link);
    assert EnsurePowered(d, link) == Nothing(d);
    assert Clamp(17, C.MIN_PRESET, C.MAX_PRESET) == 17;
  }

  /** Every operation keeps the fields in range and writes only byte
      sequences, so `bytes(command)` never fails. */
  lemma SetPowerInRange(d: DeviceState, on: bool, link: Attempt)
    requires InRange(d)
    ensures InRange(SetPowerSpec(d, on, link).device) && FramesAreBytes(SetPowerSpec(d, on, link).frames)
  {
  }

  lemma SetColorHsvInRange(d: DeviceState, toRgb: HsvToRgb, h: int, s: int, v: int, powerLink: Attempt, link: Attempt)
    requires InRange(d)
    ensures var st := SetColorHsvSpec(d, toRgb, h, s, v, powerLink, link);
      InRange(st.device) && FramesAreBytes(st.frames)
  {
    var h', s', v' := Clamp(h, 0, 359), Clamp(s, 0, 100), Clamp(v, 0, 100);
    ColorCommandBytes(h', s', v');
    WithChecksumBytes(ColorCommand(h', s', v'));
    SetPowerInRange(d, true, powerLink);
  }

  lemma SetPresetInRange(d: DeviceState, preset: int, powerLink: Attempt, link: Attempt)
    requires InRange(d)
    ensures var st := SetPresetSpec(d, preset, powerLink, link);
      InRange(st.device) && FramesAreBytes(st.frames)
  {
    var p := EnsurePowered(d, powerLink);
    SetPowerInRange(d, true, powerLink);
    var id := Clamp(preset, C.MIN_PRESET, C.MAX_PRESET);
    var b := BrightnessOr50(p.device.brightness);
    PresetCommandBytes(id, b);
    WithChecksumBytes(PresetCommand(id, b));
  }

  /** A notification never takes the fields out of range. */
  lemma ApplyNotificationInRange(d: DeviceState, toRgb: HsvToRgb, data: seq<byte>)
    requires InRange(d)
    ensures InRange(ApplyNotification(d, toRgb, Decode(data)))
  {
  }

  /** A 4-byte notification is an ack and any other one shorter than 12
      bytes is ignored: neither touches the device state. */
  lemma ShortNotificationKeepsState(d: DeviceState, toRgb: HsvToRgb, data: seq<byte>)
    requires |data| < 12
    ensures ApplyNotification(d, toRgb, Decode(data)) == d
    ensures Decode(data).Ack? <==> |data| == 4
  {
  }

  /** A power-off notification records `state = False` and nothing else:
      mode, colour, preset and brightness keep their last values. */
  lemma OffNotificationOnlyPower(d: DeviceState, toRgb: HsvToRgb, data: seq<byte>)
    requires |data| >= 12 && data[6] != 1
    ensures ApplyNotification(d, toRgb, Decode(data)) == d.(state := Some(false))
  {
  }

  /** A colour notification of 14 bytes or more records H and the tenths
      S and V, with V as the brightness. */
  lemma ColorNotification(d: DeviceState, toRgb: HsvToRgb, data: seq<byte>)
    requires |data| >= 14 && data[6] == 1 && data[7] == 1
    ensures var h, s, v := BE16(data[8], data[9]), BE16(data[10], data[11]) / 10, BE16(data[12], data[13]) / 10;
      ApplyNotification(d, toRgb, Decode(data))
        == d.(state := Some(true), mode := Some(1), hsv := Some((h, s, v)), brightness := Some(v), color := Some(toRgb(h, s, v)))
  {
  }

  /** A preset notification records the preset and brightness and, unlike
      set_preset, leaves hsv and color as they were. */
  lemma PresetNotificationKeepsColor(d: DeviceState, toRgb: HsvToRgb, data: seq<byte>)
    requires |data| >= 12 && data[6] == 1 && data[7] == 2
    ensures var st := ApplyNotification(d, toRgb, Decode(data));
      && st == d.(state := Some(true), mode := Some(2), currentPreset := Some(data[8]),
                  brightness := Some(BE16(data[9], data[10]) / 10))
      && st.hsv == d.hsv && st.color == d.color
  {
  }

  /** Any other mode is stored, and nothing else but power changes. */
  lemma OtherModeNotification(d: DeviceState, toRgb: HsvToRgb, data: seq<byte>)
    requires |data| >= 12 && data[6] == 1 && data[7] != 1 && data[7] != 2
    ensures ApplyNotification(d, toRgb, Decode(data)) == d.(state := Some(true), mode := Some(data[7]))
  {
  }
}
