/** The light entity (custom_components/hello_fairy_ble/light.py): the
    brightness rescaler, the brightness and effect properties it reports,
    and the order of calls when the light is turned on or off. */
module Light {
  import opened Wrappers
  import opened Frames
  import opened Device
  import Api
  import C = Constants

  function Abs(x: int): nat {
    if x < 0 then -x else x
  }

  /** Python's `int(p / d)`: the true quotient truncated toward zero. */
  function TruncDiv(p: int, d: int): int
    requires d != 0
  {
    var q := Abs(p) / Abs(d);
    if (p < 0) == (d < 0) then q else -q
  }

  lemma MulMono(a: int, b: int, c: int)
    requires a <= b && c >= 0
    ensures a * c <= b * c
  {
    assert b * c - a * c == (b - a) * c;
  }
  lemma DivMono(a: int, b: int, d: int)
    requires 0 <= a <= b && d > 0
    ensures a / d <= b / d
  {
    var qa, qb := a / d, b / d;
    if qa > qb {
      MulMono(qb + 1, qa, d);
      assert false;
    }
  }
  lemma DivOfSum(p: int, d: int, q: int, r: int)
    requires d > 0 && p == q * d + r && 0 <= r < d
    ensures p / d == q
  {
    var q' := p / d;
    if q' < q {
      MulMono(q' + 1, q, d);
      assert false;
    } else if q < q' {
      MulMono(q + 1, q', d);
      assert false;
    }
  }
  lemma DivNonNeg(a: int, d: int)
    requires 0 <= a && d > 0
    ensures 0 <= a / d
  {
  }
  lemma TruncDivPos(p: int, d: int)
    requires d > 0
    ensures TruncDiv(p, d) == if p < 0 then -((-p) / d) else p / d
  {
    assert Abs(d) == d;
  }
  lemma TruncDivMono(p1: int, p2: int, d: int)
    requires p1 <= p2 && d > 0
    ensures TruncDiv(p1, d) <= TruncDiv(p2, d)
  {
    TruncDivPos(p1, d);
    TruncDivPos(p2, d);
    if 0 <= p1 {
      DivMono(p1, p2, d);
    } else if p2 < 0 {
      DivMono(-p2, -p1, d);
    } else {
      DivNonNeg(-p1, d);
      DivNonNeg(p2, d);
    }
  }
  lemma MulDiv(k: nat, d: int)
    requires d > 0
    ensures (k * d) / d == k
  {
    DivOfSum(k * d, d, k, 0);
  }
  lemma TruncDivMultiple(k: int, d: int)
    requires d > 0
    ensures TruncDiv(k * d, d) == k
  {
    TruncDivPos(k * d, d);
    if k >= 0 {
      MulMono(0, k, d);
      MulDiv(k, d);
    } else {
      assert -(k * d) == (-k) * d;
      MulDiv(-k, d);
    }
  }

  /** `brightness_scale`: `int(to_min + (x - from_min) * (to_max - to_min) / (from_max - from_min))`,
      with the sum written over the common denominator so that the true
      quotient is truncated once, as `int()` does. */
  function BrightnessScale(x: int, fromMin: int, fromMax: int, toMin: int, toMax: int): int
    requires fromMax != fromMin
  {
    TruncDiv(toMin * (fromMax - fromMin) + (x - fromMin) * (toMax - toMin), fromMax - fromMin)
  }

  /** A value inside the source range lands inside the target range. */
  lemma BrightnessScaleRange(x: int, fromMin: int, fromMax: int, toMin: int, toMax: int)
    requires fromMin < fromMax && fromMin <= x <= fromMax && toMin <= toMax
    ensures toMin <= BrightnessScale(x, fromMin, fromMax, toMin, toMax) <= toMax
  {
    var d := fromMax - fromMin;
    var n := (x - fromMin) * (toMax - toMin);
    MulMono(0, x - fromMin, toMax - toMin);
    MulMono(x - fromMin, d, toMax - toMin);
    assert 0 <= n <= d * (toMax - toMin);
    TruncDivMono(toMin * d, toMin * d + n, d);
    TruncDivMono(toMin * d + n, toMax * d, d);
    TruncDivMultiple(toMin, d);
    TruncDivMultiple(toMax, d);
  }

  /** The rescaler never decreases as its input grows. */
  lemma BrightnessScaleMonotone(x1: int, x2: int, fromMin: int, fromMax: int, toMin: int, toMax: int)
    requires fromMin < fromMax && toMin <= toMax && x1 <= x2
    ensures BrightnessScale(x1, fromMin, fromMax, toMin, toMax) <= BrightnessScale(x2, fromMin, fromMax, toMin, toMax)
  {
    var d := fromMax - fromMin;
    MulMono(x1 - fromMin, x2 - fromMin, toMax - toMin);
    TruncDivMono(toMin * d + (x1 - fromMin) * (toMax - toMin), toMin * d + (x2 - fromMin) * (toMax - toMin), d);
  }

  /** On non-negative inputs truncation is floor division. */
  lemma BrightnessScaleFloor(x: int, fromMin: int, fromMax: int, toMin: int, toMax: int)
    requires 0 <= fromMin < fromMax && fromMin <= x && 0 <= toMin <= toMax
    ensures BrightnessScale(x, fromMin, fromMax, toMin, toMax)
         == toMin + (x - fromMin) * (toMax - toMin) / (fromMax - fromMin)
  {
    var d := fromMax - fromMin;
    var n := (x - fromMin) * (toMax - toMin);
    MulMono(0, x - fromMin, toMax - toMin);
    var q, r := n / d, n % d;
    assert n == q * d + r && 0 <= r < d;
    assert toMin * d + n == (toMin + q) * d + r;
    DivOfSum(toMin * d + n, d, toMin + q, r);
  }


  /** The ends of the source range map to the ends of the target range. */
  lemma BrightnessScaleEnds(fromMax: int, toMax: int)
    requires 0 < fromMax && 0 <= toMax
    ensures BrightnessScale(0, 0, fromMax, 0, toMax) == 0
    ensures BrightnessScale(fromMax, 0, fromMax, 0, toMax) == toMax
  {
    assert 0 * fromMax + (0 - 0) * (toMax - 0) == 0;
    TruncDivMultiple(0, fromMax);
    assert 0 * fromMax + (fromMax - 0) * (toMax - 0) == toMax * fromMax;
    TruncDivMultiple(toMax, fromMax);
  }

  /** The conversion the entity reports with, 0..100 to 0..255. */
  lemma ReportScaleEndpoints()
    ensures BrightnessScale(0, 0, 100, 0, 255) == 0
    ensures BrightnessScale(100, 0, 100, 0, 255) == 255
  {
    BrightnessScaleEnds(100, 255);
  }

  /** The conversion the entity commands with, 0..255 to 0..100. */
  lemma CommandScaleEndpoints()
    ensures BrightnessScale(0, 0, 255, 0, 100) == 0
    ensures BrightnessScale(255, 0, 255, 0, 100) == 100
  {
    BrightnessScaleEnds(255, 100);
  }

  /** The `brightness` property: the stored 0..100 value on the 0..255 scale. */
  function BrightnessProperty(stored: Option<int>): (r: Option<int>)
    ensures r.None? <==> stored.None?
    ensures stored.Some? && 0 <= stored.value <= 100 ==> 0 <= r.value <= 255
  {
    if stored.None? then None
    else
      var b := stored.value;
      if 0 <= b <= 100 then
        BrightnessScaleRange(b, 0, 100, 0, 255);
        Some(BrightnessScale(b, 0, 100, 0, 255))
      else Some(BrightnessScale(b, 0, 100, 0, 255))
  }

  /** The `effect` property: in preset mode with a non-zero preset, the
      catalog name for that preset; otherwise None. */
  function EffectOf(d: DeviceState): Option<string> {
    if d.mode == Some(C.MODE_PRESET) && d.currentPreset.Some? && d.currentPreset.value != 0
    then C.NameForId(d.currentPreset.value)
    else None
  }

  /** The `effect` property as the entity computes it: a search of the
      catalog in order that returns at the first matching id. */
  method Effect(d: DeviceState) returns (name: Option<string>)
    ensures name == EffectOf(d)
    ensures name.Some? ==> d.mode == Some(C.MODE_PRESET) && C.Lookup(name.value) == d.currentPreset
  {
    if d.mode == Some(C.MODE_PRESET) && d.currentPreset.Some? && d.currentPreset.value != 0 {
      var presetNum := d.currentPreset.value;
      for i := 0 to |C.EFFECT_PRESETS|
        invariant forall j :: 0 <= j < i ==> C.EFFECT_PRESETS[j].1 != presetNum
      {
        var (effectName, presetValue) := C.EFFECT_PRESETS[i];
        if presetValue == presetNum {
          ghost var r := C.NameForId(presetNum);
          ghost var k :| 0 <= k < |C.EFFECT_PRESETS| && C.EFFECT_PRESETS[k] == (r.value, presetNum)
            && forall j :: 0 <= j < k ==> C.EFFECT_PRESETS[j].1 != presetNum;
          assert k == i;
          C.LookupReverse(effectName, presetNum);
          return Some(effectName);
        }
      }
    }
    return None;
  }

  /** After set_effect(name) succeeds for a catalog name, the entity reports
      that name as its effect. */
  lemma SetEffectShowsEffect(d: DeviceState, name: string, powerLink: Attempt, link: Attempt)
    requires InRange(d) && C.Lookup(name).Some?
    requires SetEffectSpec(d, name, powerLink, link).outcome.Pass?
    ensures EffectOf(SetEffectSpec(d, name, powerLink, link).device) == Some(name)
  {
    var id := C.Lookup(name).value;
    SetEffectEffect(d, name, powerLink, link);
    SetPresetEffect(d, id, powerLink, link);
    C.CatalogIdsInPresetRange();
    C.LookupReverse(name, id);
  }

  /** After set_color_hsv succeeds the entity reports no effect, and the
      brightness it reports is the clamped value on the 0..255 scale. */
  lemma SetColorHidesEffect(d: DeviceState, toRgb: HsvToRgb, h: int, s: int, v: int, powerLink: Attempt, link: Attempt)
    requires SetColorHsvSpec(d, toRgb, h, s, v, powerLink, link).outcome.Pass?
    ensures var st := SetColorHsvSpec(d, toRgb, h, s, v, powerLink, link);
      EffectOf(st.device) == None
      && BrightnessProperty(st.device.brightness) == Some(BrightnessScale(Clamp(v, 0, 100), 0, 100, 0, 255))
  {
    SetColorHsvEffect(d, toRgb, h, s, v, powerLink, link);
  }

  // ---------------------------------------------------------------------
  // async_turn_on and async_turn_off.

  /** Two operations in a row, the second started from the first's state. */
  function Chain(first: Step, second: Step): Step {
    Step(second.device, first.frames + second.frames, second.outcome)
  }

  /** Running two operations in a row leaves the frame log, the ack flag and
      the callback count where the chained operation says, provided the first
      returned normally and the second only times out after writing something. */
  lemma ChainEffects(log: seq<seq<int>>, before: bool, first: Step, second: Step)
    requires first.outcome.Pass?
    requires second.outcome == Fail(AckTimeout) ==> second.frames != []
    ensures (log + first.frames) + second.frames == log + Chain(first, second).frames
    ensures AckFlagAfter(AckFlagAfter(before, first), second) == AckFlagAfter(before, Chain(first, second))
    ensures AcksHandled(first) + AcksHandled(second) == AcksHandled(Chain(first, second))
  {
    if second.frames == [] {
      assert first.frames + second.frames == first.frames;
    } else {
      assert first.frames + second.frames != [];
    }
  }

  /** The brightness step of `async_turn_on`, when the key is given. */
  function BrightnessStage(d: DeviceState, toRgb: HsvToRgb, brightness: Option<int>, link: Attempt): (st: Step)
    ensures st.outcome == Fail(AckTimeout) ==> st.frames != []
  {
    if brightness.Some? then SetBrightnessSpec(d, toRgb, BrightnessScale(brightness.value, 0, 255, 0, 100), link)
    else Nothing(d)
  }

  /** The colour step of `async_turn_on`, when the key is given. */
  function ColorStage(d: DeviceState, toRgb: HsvToRgb, toHsv: RgbToHsv, rgb: Option<Rgb>, link: Attempt): (st: Step)
    requires rgb.Some? ==> 0 <= rgb.value.0 < 256 && 0 <= rgb.value.1 < 256 && 0 <= rgb.value.2 < 256
    ensures st.outcome == Fail(AckTimeout) ==> st.frames != []
  {
    if rgb.Some? then SetColorRgbSpec(d, toRgb, toHsv, rgb.value.0, rgb.value.1, rgb.value.2, link, link)
    else Nothing(d)
  }

  /** The effect step of `async_turn_on`, when the key is given. */
  function EffectStage(d: DeviceState, effect: Option<string>, link: Attempt): (st: Step)
    ensures st.outcome == Fail(AckTimeout) ==> st.frames != []
  {
    if effect.Some? then SetEffectSpec(d, effect.value, link, link) else Nothing(d)
  }

  /** The colour step and then, unless it raised, the effect step. */
  function ColorThenEffect(d: DeviceState, toRgb: HsvToRgb, toHsv: RgbToHsv, rgb: Option<Rgb>, effect: Option<string>,
                           colorLink: Attempt, effectLink: Attempt): (st: Step)
    requires rgb.Some? ==> 0 <= rgb.value.0 < 256 && 0 <= rgb.value.1 < 256 && 0 <= rgb.value.2 < 256
    ensures st.outcome == Fail(AckTimeout) ==> st.frames != []
  {
    var c := ColorStage(d, toRgb, toHsv, rgb, colorLink);
    if c.outcome.Fail? then c else Chain(c, EffectStage(c.device, effect, effectLink))
  }

  /** The brightness step and then, unless it raised, the colour and effect steps. */
  function BrightnessThenRest(d: DeviceState, toRgb: HsvToRgb, toHsv: RgbToHsv,
                              brightness: Option<int>, rgb: Option<Rgb>, effect: Option<string>,
                              brightnessLink: Attempt, colorLink: Attempt, effectLink: Attempt): (st: Step)
    requires rgb.Some? ==> 0 <= rgb.value.0 < 256 && 0 <= rgb.value.1 < 256 && 0 <= rgb.value.2 < 256
    ensures st.outcome == Fail(AckTimeout) ==> st.frames != []
  {
    var b := BrightnessStage(d, toRgb, brightness, brightnessLink);
    if b.outcome.Fail? then b else Chain(b, ColorThenEffect(b.device, toRgb, toHsv, rgb, effect, colorLink, effectLink))
  }

  /** `async_turn_on`: power on, then brightness (rescaled from 0..255),
      colour and effect, each only when its key is given; the first raised
      error ends the sequence. The later steps find the light on, so the
      power-on link each of them carries goes unused. */
  function TurnOnSpec(d: DeviceState, toRgb: HsvToRgb, toHsv: RgbToHsv,
                      brightness: Option<int>, rgb: Option<Rgb>, effect: Option<string>,
                      powerLink: Attempt, brightnessLink: Attempt, colorLink: Attempt, effectLink: Attempt): (st: Step)
    requires rgb.Some? ==> 0 <= rgb.value.0 < 256 && 0 <= rgb.value.1 < 256 && 0 <= rgb.value.2 < 256
    ensures st.outcome == Fail(AckTimeout) ==> st.frames != []
  {
    var p := SetPowerSpec(d, true, powerLink);
    if p.outcome.Fail? then p
    else Chain(p, BrightnessThenRest(p.device, toRgb, toHsv, brightness, rgb, effect, brightnessLink, colorLink, effectLink))
  }

  method BrightnessStep(api: Api.HelloFairyApi, brightness: Option<int>, link: Attempt) returns (result: Outcome<Error>)
    requires api.Valid()
    modifies api
    ensures api.Valid()
    ensures var st := BrightnessStage(old(api.Snapshot()), api.hsvToRgb, brightness, link);
      api.Snapshot() == st.device && api.written == old(api.written) + st.frames && result == st.outcome
    ensures var st := BrightnessStage(old(api.Snapshot()), api.hsvToRgb, brightness, link);
      api.ackReceived == AckFlagAfter(old(api.ackReceived), st) && api.updates == old(api.updates) + AcksHandled(st)
  {
    result := Pass;
    if brightness.Some? {
      result := api.SetBrightness(BrightnessScale(brightness.value, 0, 255, 0, 100), link);
    }
  }

  method ColorStep(api: Api.HelloFairyApi, rgb: Option<Rgb>, link: Attempt) returns (result: Outcome<Error>)
    requires api.Valid()
    requires rgb.Some? ==> 0 <= rgb.value.0 < 256 && 0 <= rgb.value.1 < 256 && 0 <= rgb.value.2 < 256
    modifies api
    ensures api.Valid()
    ensures var st := ColorStage(old(api.Snapshot()), api.hsvToRgb, api.rgbToHsv, rgb, link);
      api.Snapshot() == st.device && api.written == old(api.written) + st.frames && result == st.outcome
    ensures var st := ColorStage(old(api.Snapshot()), api.hsvToRgb, api.rgbToHsv, rgb, link);
      api.ackReceived == AckFlagAfter(old(api.ackReceived), st) && api.updates == old(api.updates) + AcksHandled(st)
  {
    result := Pass;
    if rgb.Some? {
      var (red, green, blue) := rgb.value;
      result := api.SetColorRgb(red, green, blue, link, link);
    }
  }

  method EffectStep(api: Api.HelloFairyApi, effect: Option<string>, link: Attempt) returns (result: Outcome<Error>)
    requires api.Valid()
    modifies api
    ensures api.Valid()
    ensures var st := EffectStage(old(api.Snapshot()), effect, link);
      api.Snapshot() == st.device && api.written == old(api.written) + st.frames && result == st.outcome
    ensures var st := EffectStage(old(api.Snapshot()), effect, link);
      api.ackReceived == AckFlagAfter(old(api.ackReceived), st) && api.updates == old(api.updates) + AcksHandled(st)
  {
    result := Pass;
    if effect.Some? {
      result := api.SetEffect(effect.value, link, link);
    }
  }

  method ColorThenEffectSteps(api: Api.HelloFairyApi, rgb: Option<Rgb>, effect: Option<string>,
                              colorLink: Attempt, effectLink: Attempt) returns (result: Outcome<Error>)
    requires api.Valid()
    requires rgb.Some? ==> 0 <= rgb.value.0 < 256 && 0 <= rgb.value.1 < 256 && 0 <= rgb.value.2 < 256
    modifies api
    ensures api.Valid()
    ensures var st := ColorThenEffect(old(api.Snapshot()), api.hsvToRgb, api.rgbToHsv, rgb, effect, colorLink, effectLink);
      api.Snapshot() == st.device && api.written == old(api.written) + st.frames && result == st.outcome
    ensures var st := ColorThenEffect(old(api.Snapshot()), api.hsvToRgb, api.rgbToHsv, rgb, effect, colorLink, effectLink);
      api.ackReceived == AckFlagAfter(old(api.ackReceived), st) && api.updates == old(api.updates) + AcksHandled(st)
  {
    ghost var a0 := api.ackReceived;
    ghost var c := ColorStage(api.Snapshot(), api.hsvToRgb, api.rgbToHsv, rgb, colorLink);
    result := ColorStep(api, rgb, colorLink);
    if result.Pass? {
      ghost var e := EffectStage(c.device, effect, effectLink);
      result := EffectStep(api, effect, effectLink);
      ChainEffects(old(api.written), a0, c, e);
    }
  }

  method BrightnessThenRestSteps(api: Api.HelloFairyApi, brightness: Option<int>, rgb: Option<Rgb>, effect: Option<string>,
                                 brightnessLink: Attempt, colorLink: Attempt, effectLink: Attempt)
    returns (result: Outcome<Error>)
    requires api.Valid()
    requires rgb.Some? ==> 0 <= rgb.value.0 < 256 && 0 <= rgb.value.1 < 256 && 0 <= rgb.value.2 < 256
    modifies api
    ensures api.Valid()
    ensures var st := BrightnessThenRest(old(api.Snapshot()), api.hsvToRgb, api.rgbToHsv, brightness, rgb, effect,
                                         brightnessLink, colorLink, effectLink);
      api.Snapshot() == st.device && api.written == old(api.written) + st.frames && result == st.outcome
    ensures var st := BrightnessThenRest(old(api.Snapshot()), api.hsvToRgb, api.rgbToHsv, brightness, rgb, effect,
                                         brightnessLink, colorLink, effectLink);
      api.ackReceived == AckFlagAfter(old(api.ackReceived), st) && api.updates == old(api.updates) + AcksHandled(st)
  {
    ghost var w0, a0 := api.written, api.ackReceived;
    ghost var b := BrightnessStage(api.Snapshot(), api.hsvToRgb, brightness, brightnessLink);
    result := BrightnessStep(api, brightness, brightnessLink);
    if result.Pass? {
      ghost var w1 := api.written;
      assert w1 == w0 + b.frames;
      ghost var c := ColorThenEffect(b.device, api.hsvToRgb, api.rgbToHsv, rgb, effect, colorLink, effectLink);
      result := ColorThenEffectSteps(api, rgb, effect, colorLink, effectLink);
      assert api.written == w1 + c.frames;
      ChainEffects(w0, a0, b, c);
    }
  }

  method TurnOn(api: Api.HelloFairyApi, brightness: Option<int>, rgb: Option<Rgb>, effect: Option<string>,
                powerLink: Attempt, brightnessLink: Attempt, colorLink: Attempt, effectLink: Attempt)
    returns (result: Outcome<Error>)
    requires api.Valid()
    requires rgb.Some? ==> 0 <= rgb.value.0 < 256 && 0 <= rgb.value.1 < 256 && 0 <= rgb.value.2 < 256
    modifies api
    ensures api.Valid()
    ensures var st := TurnOnSpec(old(api.Snapshot()), api.hsvToRgb, api.rgbToHsv, brightness, rgb, effect,
                                 powerLink, brightnessLink, colorLink, effectLink);
      api.Snapshot() == st.device && api.written == old(api.written) + st.frames && result == st.outcome
    ensures var st := TurnOnSpec(old(api.Snapshot()), api.hsvToRgb, api.rgbToHsv, brightness, rgb, effect,
                                 powerLink, brightnessLink, colorLink, effectLink);
      api.ackReceived == AckFlagAfter(old(api.ackReceived), st) && api.updates == old(api.updates) + AcksHandled(st)
  {
    ghost var w0, a0 := api.written, api.ackReceived;
    ghost var p := SetPowerSpec(api.Snapshot(), true, powerLink);
    result := api.SetPower(true, powerLink);
    if result.Pass? {
      ghost var w1 := api.written;
      assert w1 == w0 + p.frames;
      ghost var r := BrightnessThenRest(p.device, api.hsvToRgb, api.rgbToHsv, brightness, rgb, effect,
                                        brightnessLink, colorLink, effectLink);
      result := BrightnessThenRestSteps(api, brightness, rgb, effect, brightnessLink, colorLink, effectLink);
      assert api.written == w1 + r.frames;
      ChainEffects(w0, a0, p, r);
    }
  }

  /** `async_turn_off`. */
  method TurnOff(api: Api.HelloFairyApi, link: Attempt) returns (result: Outcome<Error>)
    requires api.Valid()
    modifies api
    ensures api.Valid()
    ensures var st := SetPowerSpec(old(api.Snapshot()), false, link);
      api.Snapshot() == st.device && api.written == old(api.written) + st.frames && result == st.outcome
    ensures var st := SetPowerSpec(old(api.Snapshot()), false, link);
      api.ackReceived == AckFlagAfter(old(api.ackReceived), st) && api.updates == old(api.updates) + AcksHandled(st)
  {
    result := api.SetPower(false, link);
  }

  /** With no keys, turning on is set_power(True) alone. */
  lemma TurnOnWithoutKeys(d: DeviceState, toRgb: HsvToRgb, toHsv: RgbToHsv,
                          powerLink: Attempt, brightnessLink: Attempt, colorLink: Attempt, effectLink: Attempt)
    ensures TurnOnSpec(d, toRgb, toHsv, None, None, None, powerLink, brightnessLink, colorLink, effectLink)
         == SetPowerSpec(d, true, powerLink)
  {
  }

  /** A colour command issued while the light is on leaves it on and in range. */
  lemma ColorKeepsOn(d: DeviceState, toRgb: HsvToRgb, h: int, s: int, v: int, powerLink: Attempt, link: Attempt)
    requires IsOn(d) && InRange(d)
    ensures var st := SetColorHsvSpec(d, toRgb, h, s, v, powerLink, link);
      IsOn(st.device) && InRange(st.device) && st.frames == Sent(link, WithChecksum(ColorCommand(Clamp(h, 0, 359), Clamp(s, 0, 100), Clamp(v, 0, 100))))
  {
    SetColorHsvInRange(d, toRgb, h, s, v, powerLink, link);
  }

  lemma BrightnessStageKeepsOn(d: DeviceState, toRgb: HsvToRgb, brightness: Option<int>, link: Attempt)
    requires IsOn(d) && InRange(d)
    ensures IsOn(BrightnessStage(d, toRgb, brightness, link).device) && InRange(BrightnessStage(d, toRgb, brightness, link).device)
  {
    if brightness.Some? {
      var l := Clamp(BrightnessScale(brightness.value, 0, 255, 0, 100), 0, 100);
      var hs := if d.hsv.Some? then (d.hsv.value.0, d.hsv.value.1) else (0, 0);
      ColorKeepsOn(d, toRgb, hs.0, hs.1, l, link, link);
    }
  }

  lemma ColorStageKeepsOn(d: DeviceState, toRgb: HsvToRgb, toHsv: RgbToHsv, rgb: Option<Rgb>, link: Attempt)
    requires IsOn(d) && InRange(d)
    requires rgb.Some? ==> 0 <= rgb.value.0 < 256 && 0 <= rgb.value.1 < 256 && 0 <= rgb.value.2 < 256
    ensures IsOn(ColorStage(d, toRgb, toHsv, rgb, link).device) && InRange(ColorStage(d, toRgb, toHsv, rgb, link).device)
  {
    if rgb.Some? {
      var (red, green, blue) := rgb.value;
      var hsv := if red == 0 && green == 0 && blue == 0 then (0, 0, BrightnessOr50(d.brightness)) else toHsv(red, green, blue);
      ColorKeepsOn(d, toRgb, hsv.0, hsv.1, hsv.2, link, link);
    }
  }

  lemma EffectStageKeepsOn(d: DeviceState, effect: Option<string>, link: Attempt)
    requires IsOn(d) && InRange(d)
    ensures var st := EffectStage(d, effect, link);
      && IsOn(st.device)
      && (st.outcome.Pass? && effect.Some? && C.Lookup(effect.value).Some? ==> EffectOf(st.device) == effect)
  {
    if effect.Some? && C.Lookup(effect.value).Some? {
      var id := C.Lookup(effect.value).value;
      SetEffectEffect(d, effect.value, link, link);
      SetPresetEffect(d, id, link, link);
      if SetEffectSpec(d, effect.value, link, link).outcome.Pass? {
        SetEffectShowsEffect(d, effect.value, link, link);
      }
    }
  }

  /** Turning on sends the power-on frame first whenever the light was not on,
      leaves the light on once set_power(True) has succeeded, and a given
      catalog effect is the one the entity then reports, since it is
      applied last. */
  lemma TurnOnOrder(d: DeviceState, toRgb: HsvToRgb, toHsv: RgbToHsv,
                    brightness: Option<int>, rgb: Option<Rgb>, effect: Option<string>,
                    powerLink: Attempt, brightnessLink: Attempt, colorLink: Attempt, effectLink: Attempt)
    requires InRange(d)
    requires rgb.Some? ==> 0 <= rgb.value.0 < 256 && 0 <= rgb.value.1 < 256 && 0 <= rgb.value.2 < 256
    ensures var st := TurnOnSpec(d, toRgb, toHsv, brightness, rgb, effect, powerLink, brightnessLink, colorLink, effectLink);
      && (!IsOn(d) && |st.frames| > 0 ==> st.frames[0] == WithChecksum(PowerCommand(true)))
      && (st.outcome.Pass? ==> IsOn(st.device))
      && (st.outcome.Pass? && effect.Some? && C.Lookup(effect.value).Some? ==> EffectOf(st.device) == effect)
  {
    var p := SetPowerSpec(d, true, powerLink);
    SetPowerInRange(d, true, powerLink);
    if p.outcome.Pass? {
      BrightnessThenRestKeepsOn(p.device, toRgb, toHsv, brightness, rgb, effect, brightnessLink, colorLink, effectLink);
      if !IsOn(d) {
        assert p.frames == [WithChecksum(PowerCommand(true))];
      }
    }
  }

  lemma ColorThenEffectKeepsOn(d: DeviceState, toRgb: HsvToRgb, toHsv: RgbToHsv, rgb: Option<Rgb>, effect: Option<string>,
                               colorLink: Attempt, effectLink: Attempt)
    requires IsOn(d) && InRange(d)
    requires rgb.Some? ==> 0 <= rgb.value.0 < 256 && 0 <= rgb.value.1 < 256 && 0 <= rgb.value.2 < 256
    ensures var st := ColorThenEffect(d, toRgb, toHsv, rgb, effect, colorLink, effectLink);
      && IsOn(st.device)
      && (st.outcome.Pass? && effect.Some? && C.Lookup(effect.value).Some? ==> EffectOf(st.device) == effect)
  {
    ColorStageKeepsOn(d, toRgb, toHsv, rgb, colorLink);
    var c := ColorStage(d, toRgb, toHsv, rgb, colorLink);
    if c.outcome.Pass? {
      EffectStageKeepsOn(c.device, effect, effectLink);
    }
  }

  lemma BrightnessThenRestKeepsOn(d: DeviceState, toRgb: HsvToRgb, toHsv: RgbToHsv,
                                  brightness: Option<int>, rgb: Option<Rgb>, effect: Option<string>,
                                  brightnessLink: Attempt, colorLink: Attempt, effectLink: Attempt)
    requires IsOn(d) && InRange(d)
    requires rgb.Some? ==> 0 <= rgb.value.0 < 256 && 0 <= rgb.value.1 < 256 && 0 <= rgb.value.2 < 256
    ensures var st := BrightnessThenRest(d, toRgb, toHsv, brightness, rgb, effect, brightnessLink, colorLink, effectLink);
      && IsOn(st.device)
      && (st.outcome.Pass? && effect.Some? && C.Lookup(effect.value).Some? ==> EffectOf(st.device) == effect)
  {
    BrightnessStageKeepsOn(d, toRgb, brightness, brightnessLink);
    var b := BrightnessStage(d, toRgb, brightness, brightnessLink);
    if b.outcome.Pass? {
      ColorThenEffectKeepsOn(b.device, toRgb, toHsv, rgb, effect, colorLink, effectLink);
    }
  }
}
