/** HelloFairyAPI (custom_components/hello_fairy_ble/api.py): the object that
    owns the device state and the acknowledgement flag, sends commands and
    handles notifications. Each method is proved to do what the matching
    specification function of module Device says. */
module Api {
  import opened Wrappers
  import opened Frames
  import opened Device
  import C = Constants

  /** The acknowledgement the device returns for a command: ACK2 for the
      power opcode, ACK3 for the colour/preset opcode. */
  function AckFrame(command: seq<int>): (ack: seq<byte>)
    ensures |ack| == 4
  {
    var a: seq<int> := if |command| > 1 && command[1] == C.CMD_POWER then C.ACK2 else C.ACK3;
    assert forall i :: 0 <= i < |a| ==> 0 <= a[i] < 256;
    a
  }

  class HelloFairyApi {
    var state: Option<bool>
    var brightness: Option<int>
    var color: Option<Rgb>
    var hsv: Option<Hsv>
    var currentPreset: Option<int>
    var mode: Option<int>
    var ackReceived: bool

    /** The frames written to the command characteristic, oldest first. */
    ghost var written: seq<seq<int>>
    /** How many times the update callback has been invoked. */
    ghost var updates: nat

    const hsvToRgb: HsvToRgb
    const rgbToHsv: RgbToHsv
    const availableEffects: seq<string>

    function Snapshot(): DeviceState
      reads this
    {
      DeviceState(state, brightness, color, hsv, currentPreset, mode)
    }

    ghost predicate Valid()
      reads this
    {
      InRange(Snapshot()) && FramesAreBytes(written)
    }

    /** `__init__`: nothing known yet, and the ack flag starts set. */
    constructor (hsvToRgb: HsvToRgb, rgbToHsv: RgbToHsv)
      ensures Valid() && Snapshot() == Unknown
      ensures ackReceived && written == [] && updates == 0
      ensures this.hsvToRgb == hsvToRgb && this.rgbToHsv == rgbToHsv
      ensures availableEffects == C.EffectNames()
    {
      state, brightness, color, hsv, currentPreset, mode := None, None, None, None, None, None;
      ackReceived := true;
      written, updates := [], 0;
      this.hsvToRgb, this.rgbToHsv := hsvToRgb, rgbToHsv;
      availableEffects := C.EffectNames();
    }

    /** `get_available_effects`: every listed name is one set_effect accepts. */
    method GetAvailableEffects() returns (names: seq<string>)
      ensures |names| == |C.EFFECT_PRESETS|
      ensures forall i :: 0 <= i < |names| ==> C.Lookup(names[i]) == Some(C.EFFECT_PRESETS[i].1)
    {
      names := C.EffectNames();
      C.EffectNamesSelectable();
    }

    /** `_send_command`: connect if needed, append the checksum, write the
        frame, clear the ack flag and poll for it. */
    method SendCommand(command: seq<int>, link: Attempt) returns (result: Outcome<Error>)
      requires Valid() && AllBytes(command)
      modifies this
      ensures Valid()
      ensures result == SendOutcome(link)
      ensures written == old(written) + Sent(link, WithChecksum(command))
      ensures Snapshot() == old(Snapshot())
      ensures link.connects && link.writes ==> ackReceived == result.Pass?
      ensures !(link.connects && link.writes) ==> ackReceived == old(ackReceived)
      ensures updates == old(updates) + (if result.Pass? then 1 else 0)
    {
      // _ensure_connected raises ConnectionError before anything is written
      if !link.connects {
        return Fail(ConnectionFailed);
      }
      var checksum := Checksum(command);
      var frame := command + [checksum];
      if !link.writes {
        return Fail(WriteFailed);
      }
      WithChecksumBytes(command);
      written := written + [frame];
      ackReceived := false;
      var polls := 0;
      while !ackReceived && polls < MAX_POLLS
        invariant 0 <= polls <= MAX_POLLS
        invariant ackReceived <==> AckedWithin(link.acks, polls)
        invariant Valid() && Snapshot() == old(Snapshot())
        invariant written == old(written) + [frame]
        invariant updates == old(updates) + (if ackReceived then 1 else 0)
      {
        // asyncio.sleep(0.1): the notification callback may run meanwhile
        if polls < |link.acks| && link.acks[polls] {
          var handled := HandleNotification(AckFrame(command));
        }
        polls := polls + 1;
      }
      if !ackReceived {
        return Fail(AckTimeout);
      }
      return Pass;
    }

    /** `_handle_notification`. */
    method HandleNotification(data: seq<byte>) returns (result: Outcome<Error>)
      requires Valid()
      modifies this
      ensures Valid()
      ensures Snapshot() == ApplyNotification(old(Snapshot()), hsvToRgb, Decode(data))
      ensures ackReceived == (old(ackReceived) || |data| == 4)
      ensures written == old(written)
      ensures updates == old(updates) + (if Notifies(Decode(data)) then 1 else 0)
      ensures result == if Decode(data).ColorTooShort? then Fail(IndexOutOfRange) else Pass
    {
      result := Pass;
      if |data| == 4 {
        ackReceived := true;
        updates := updates + 1;
        return;
      }
      if |data| < 12 {
        return;
      }
      var powerState := data[6] == 1;
      state := Some(powerState);
      if !powerState {
        updates := updates + 1;
        return;
      }
      var m := data[7];
      mode := Some(m);
      if m == 1 {
        if |data| < 14 {
          // data[12] or data[13] is out of range: IndexError
          return Fail(IndexOutOfRange);
        }
        var h := BE16(data[8], data[9]);
        var s := BE16(data[10], data[11]) / 10;
        var v := BE16(data[12], data[13]) / 10;
        hsv := Some((h, s, v));
        brightness := Some(v);
        color := Some(hsvToRgb(h, s, v));
      } else if m == 2 {
        var preset := data[8];
        var bright := BE16(data[9], data[10]) / 10;
        currentPreset := Some(preset);
        brightness := Some(bright);
      }
      updates := updates + 1;
    }

    /** `set_power`. */
    method SetPower(on: bool, link: Attempt) returns (result: Outcome<Error>)
      requires Valid()
      modifies this
      ensures Valid()
      ensures var st := SetPowerSpec(old(Snapshot()), on, link);
        Snapshot() == st.device && written == old(written) + st.frames && result == st.outcome
      ensures var st := SetPowerSpec(old(Snapshot()), on, link);
        ackReceived == AckFlagAfter(old(ackReceived), st) && updates == old(updates) + AcksHandled(st)
      ensures old(state) != Some(on) && result.Pass? ==> ackReceived
    {
      if state == Some(on) {
        return Pass;
      }
      var command := PowerCommand(on);
      result := SendCommand(command, link);
      if result.Fail? {
        return;
      }
      state := Some(on);
      if !on {
        brightness := None;
        color := None;
        hsv := None;
        currentPreset := None;
        mode := None;
      }
    }

    /** `set_color_hsv`. */
    method SetColorHsv(h: int, s: int, v: int, powerLink: Attempt, link: Attempt) returns (result: Outcome<Error>)
      requires Valid()
      modifies this
      ensures Valid()
      ensures var st := SetColorHsvSpec(old(Snapshot()), hsvToRgb, h, s, v, powerLink, link);
        Snapshot() == st.device && written == old(written) + st.frames && result == st.outcome
      ensures var st := SetColorHsvSpec(old(Snapshot()), hsvToRgb, h, s, v, powerLink, link);
        ackReceived == AckFlagAfter(old(ackReceived), st) && updates == old(updates) + AcksHandled(st)
    {
      if state != Some(true) {
        result := SetPower(true, powerLink);
        if result.Fail? {
          return;
        }
        // asyncio.sleep(0.1): the settle delay after power-on
      }
      var h', s', v' := Clamp(h, 0, 359), Clamp(s, 0, 100), Clamp(v, 0, 100);
      ColorCommandBytes(h', s', v');
      result := SendCommand(ColorCommand(h', s', v'), link);
      if result.Fail? {
        return;
      }
      hsv := Some((h', s', v'));
      brightness := Some(v');
      mode := Some(C.MODE_COLOR);
      currentPreset := None;
      color := Some(hsvToRgb(h', s', v'));
    }

    /** `set_color_rgb`, for channels in 0..255. */
    method SetColorRgb(red: int, green: int, blue: int, powerLink: Attempt, link: Attempt) returns (result: Outcome<Error>)
      requires Valid()
      requires 0 <= red < 256 && 0 <= green < 256 && 0 <= blue < 256
      modifies this
      ensures Valid()
      ensures var st := SetColorRgbSpec(old(Snapshot()), hsvToRgb, rgbToHsv, red, green, blue, powerLink, link);
        Snapshot() == st.device && written == old(written) + st.frames && result == st.outcome
      ensures var st := SetColorRgbSpec(old(Snapshot()), hsvToRgb, rgbToHsv, red, green, blue, powerLink, link);
        ackReceived == AckFlagAfter(old(ackReceived), st) && updates == old(updates) + AcksHandled(st)
    {
      var hsvIn := if red == 0 && green == 0 && blue == 0 then (0, 0, BrightnessOr50(brightness))
                   else rgbToHsv(red, green, blue);
      result := SetColorHsv(hsvIn.0, hsvIn.1, hsvIn.2, powerLink, link);
    }

    /** `set_brightness`. */
    method SetBrightness(level: int, link: Attempt) returns (result: Outcome<Error>)
      requires Valid()
      modifies this
      ensures Valid()
      ensures var st := SetBrightnessSpec(old(Snapshot()), hsvToRgb, level, link);
        Snapshot() == st.device && written == old(written) + st.frames && result == st.outcome
      ensures var st := SetBrightnessSpec(old(Snapshot()), hsvToRgb, level, link);
        ackReceived == AckFlagAfter(old(ackReceived), st) && updates == old(updates) + AcksHandled(st)
    {
      if state != Some(true) {
        return Pass;
      }
      var l := Clamp(level, 0, 100);
      if hsv.Some? {
        var (h, s, _) := hsv.value;
        result := SetColorHsv(h, s, l, link, link);
      } else {
        result := SetColorHsv(0, 0, l, link, link);
      }
    }

    /** `set_preset`. */
    method SetPreset(preset: int, powerLink: Attempt, link: Attempt) returns (result: Outcome<Error>)
      requires Valid()
      modifies this
      ensures Valid()
      ensures var st := SetPresetSpec(old(Snapshot()), preset, powerLink, link);
        Snapshot() == st.device && written == old(written) + st.frames && result == st.outcome
      ensures var st := SetPresetSpec(old(Snapshot()), preset, powerLink, link);
        ackReceived == AckFlagAfter(old(ackReceived), st) && updates == old(updates) + AcksHandled(st)
    {
      if state != Some(true) {
        result := SetPower(true, powerLink);
        if result.Fail? {
          return;
        }
        // asyncio.sleep(0.1): the settle delay after power-on
      }
      var id := Clamp(preset, C.MIN_PRESET, C.MAX_PRESET);
      var b := BrightnessOr50(brightness);
      PresetCommandBytes(id, b);
      result := SendCommand(PresetCommand(id, b), link);
      if result.Fail? {
        return;
      }
      currentPreset := Some(id);
      brightness := Some(b);
      mode := Some(C.MODE_PRESET);
      color := None;
      hsv := None;
    }

    /** `set_effect`: an unknown name is only logged as a warning. */
    method SetEffect(name: string, powerLink: Attempt, link: Attempt) returns (result: Outcome<Error>)
      requires Valid()
      modifies this
      ensures Valid()
      ensures var st := SetEffectSpec(old(Snapshot()), name, powerLink, link);
        Snapshot() == st.device && written == old(written) + st.frames && result == st.outcome
      ensures var st := SetEffectSpec(old(Snapshot()), name, powerLink, link);
        ackReceived == AckFlagAfter(old(ackReceived), st) && updates == old(updates) + AcksHandled(st)
    {
      var id := C.Lookup(name);
      if id.Some? {
        result := SetPreset(id.value, powerLink, link);
      } else {
        result := Pass;
      }
    }
  }
}
