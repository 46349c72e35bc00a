/** The byte-level protocol: outbound command frames with their one-byte sum
    checksum, and the length- and byte-dispatched decoding of inbound
    notifications (custom_components/hello_fairy_ble/api.py). */
module Frames {
  import opened Wrappers
  import C = Constants

  /** A value of a Python `bytearray` element. */
  type byte = x: int | 0 <= x < 256

  predicate AllBytes(s: seq<int>) {
    forall i :: 0 <= i < |s| ==> 0 <= s[i] < 256
  }

  function Sum(s: seq<int>): int {
    if s == [] then 0 else Sum(s[..|s| - 1]) + s[|s| - 1]
  }

  lemma {:induction false} SumConcat(a: seq<int>, b: seq<int>)
    ensures Sum(a + b) == Sum(a) + Sum(b)
    decreases |b|
  {
    if b == [] {
      assert a + b == a;
    } else {
      var b' := b[..|b| - 1];
      assert (a + b)[..|a + b| - 1] == a + b';
      SumConcat(a, b');
    }
  }

  /** `_calculate_checksum`: Python's `sum(data) % 256`. Python's `%` with a
      positive modulus floors, which agrees with Dafny's Euclidean `%`. */
  function Checksum(data: seq<int>): (c: int)
    ensures 0 <= c < 256
    ensures (Sum(data) - c) % 256 == 0
  {
    Sum(data) % 256
  }

  /** Appending more bytes shifts the checksum by their sum: the checksum can
      be computed incrementally, as a receiver that checks it would. */
  lemma ChecksumAppend(a: seq<int>, b: seq<int>)
    ensures Checksum(a + b) == (Checksum(a) + Sum(b)) % 256
  {
    SumConcat(a, b);
    var x, y := Sum(a), Sum(b);
    assert x == (x / 256) * 256 + x % 256;
    ModShift(x / 256, x % 256 + y);
    assert x + y == (x / 256) * 256 + (x % 256 + y);
  }

  /** Adding a multiple of 256 does not change a value modulo 256. */
  lemma ModShift(q: int, z: int)
    ensures (q * 256 + z) % 256 == z % 256
  {
    var k, r := z / 256, z % 256;
    assert q * 256 + z == (q + k) * 256 + r;
    assert 0 <= r < 256;
  }

  /** What `_send_command` writes: the command followed by its checksum. */
  function WithChecksum(command: seq<int>): (frame: seq<int>)
    ensures |frame| == |command| + 1
    ensures frame[..|command|] == command
    ensures frame[|command|] == Checksum(command)
  {
    command + [Checksum(command)]
  }

  /** A frame whose last byte is the checksum of the bytes before it. */
  predicate ChecksumValid(frame: seq<int>) {
    |frame| >= 1 && frame[|frame| - 1] == Checksum(frame[..|frame| - 1])
  }

  lemma WithChecksumValid(command: seq<int>)
    ensures ChecksumValid(WithChecksum(command))
    ensures WithChecksum(command)[..|command|] == command
  {
    var f := WithChecksum(command);
    assert f[..|f| - 1] == command;
  }

  lemma WithChecksumBytes(command: seq<int>)
    requires AllBytes(command)
    ensures AllBytes(WithChecksum(command))
  {
  }

  /** High and low byte of a 16-bit field: Python's `x >> 8` and `x & 0xFF`.
      For the non-negative values the protocol carries, both agree with
      Dafny's Euclidean `/` and `%`. */
  function Hi(x: int): int { x / 256 }
  function Lo(x: int): int { x % 256 }

  /** A big-endian 16-bit field: `(hi << 8) | lo` on two bytes. */
  function BE16(hi: byte, lo: byte): (r: int)
    ensures 0 <= r < 65536
  {
    hi * 256 + lo
  }

  lemma BE16Split(x: int)
    requires 0 <= x < 65536
    ensures 0 <= Hi(x) < 256 && 0 <= Lo(x) < 256
    ensures BE16(Hi(x), Lo(x)) == x
  {
  }

  // ---------------------------------------------------------------------
  // Outbound commands, as built by set_power, set_color_hsv and set_preset
  // (before `_send_command` appends the checksum).

  function PowerCommand(on: bool): seq<int> {
    [C.CMD_PREFIX, C.CMD_POWER, 0x01, if on then 0x01 else 0x00]
  }

  function ColorCommand(h: int, s: int, v: int): seq<int> {
    [C.CMD_PREFIX, C.CMD_COLOR_PRESET, 0x07, C.MODE_COLOR,
     Hi(h), Lo(h), Hi(s * 10), Lo(s * 10), Hi(v * 10), Lo(v * 10)]
  }

  function PresetCommand(preset: int, brightness: int): seq<int> {
    [C.CMD_PREFIX, C.CMD_COLOR_PRESET, 0x04, C.MODE_PRESET,
     preset, Hi(brightness * 10), Lo(brightness * 10)]
  }

  /** The opcode and mode constants are bytes 0, 1 and 3 of what is built,
      and byte 2 is the payload length. */
  lemma CommandLayout(on: bool, h: int, s: int, v: int, p: int, b: int)
    ensures var f := PowerCommand(on);
      f[0] == C.CMD_PREFIX && f[1] == C.CMD_POWER && f[2] == |f| - 3
    ensures var f := ColorCommand(h, s, v);
      f[0] == C.CMD_PREFIX && f[1] == C.CMD_COLOR_PRESET && f[3] == C.MODE_COLOR && f[2] == |f| - 3
    ensures var f := PresetCommand(p, b);
      f[0] == C.CMD_PREFIX && f[1] == C.CMD_COLOR_PRESET && f[3] == C.MODE_PRESET && f[2] == |f| - 3
  {
  }

  lemma ColorCommandBytes(h: int, s: int, v: int)
    requires 0 <= h <= 359 && 0 <= s <= 100 && 0 <= v <= 100
    ensures AllBytes(ColorCommand(h, s, v))
  {
  }

  lemma PresetCommandBytes(p: int, b: int)
    requires 0 <= p < 256 && 0 <= b <= 6553
    ensures AllBytes(PresetCommand(p, b))
  {
  }

  /** The request a command frame carries, as the device reads it. */
  datatype Command = PowerSet(on: bool) | ColorSet(h: int, s: int, v: int) | PresetSet(preset: int, brightness: int)

  /** A reference reader for the outbound wire format: it checks the prefix,
      the length byte and the checksum, then reads the payload. It is the
      inverse the command builders are proved against. */
  function ParseCommand(frame: seq<int>): (r: Option<Command>)
    ensures r.Some? ==> ChecksumValid(frame) && frame[0] == C.CMD_PREFIX
  {
    if |frame| < 5 || frame[0] != C.CMD_PREFIX || frame[2] != |frame| - 4 || !ChecksumValid(frame) then None
    else if frame[1] == C.CMD_POWER && |frame| == 5 && (frame[3] == 0 || frame[3] == 1) then
      Some(PowerSet(frame[3] == 1))
    else if frame[1] == C.CMD_COLOR_PRESET && |frame| == 11 && frame[3] == C.MODE_COLOR
         && AllBytes(frame[4..10]) then
      Some(ColorSet(BE16(frame[4], frame[5]), BE16(frame[6], frame[7]) / 10, BE16(frame[8], frame[9]) / 10))
    else if frame[1] == C.CMD_COLOR_PRESET && |frame| == 8 && frame[3] == C.MODE_PRESET
         && AllBytes(frame[4..7]) then
      Some(PresetSet(frame[4], BE16(frame[5], frame[6]) / 10))
    else None
  }

  lemma PowerCommandRoundTrip(on: bool)
    ensures ParseCommand(WithChecksum(PowerCommand(on))) == Some(PowerSet(on))
  {
    WithChecksumValid(PowerCommand(on));
  }

  lemma ColorCommandRoundTrip(h: int, s: int, v: int)
    requires 0 <= h <= 359 && 0 <= s <= 100 && 0 <= v <= 100
    ensures ParseCommand(WithChecksum(ColorCommand(h, s, v))) == Some(ColorSet(h, s, v))
  {
    var c := ColorCommand(h, s, v);
    var f := WithChecksum(c);
    WithChecksumValid(c);
    BE16Split(h);
    BE16Split(s * 10);
    BE16Split(v * 10);
    assert f[4..10] == [Hi(h), Lo(h), Hi(s * 10), Lo(s * 10), Hi(v * 10), Lo(v * 10)];
    assert AllBytes(f[4..10]);
    assert BE16(f[4], f[5]) == h;
    assert BE16(f[6], f[7]) / 10 == s;
    assert BE16(f[8], f[9]) / 10 == v;
  }

  lemma PresetCommandRoundTrip(p: int, b: int)
    requires 1 <= p <= 58 && 0 <= b <= 6553
    ensures ParseCommand(WithChecksum(PresetCommand(p, b))) == Some(PresetSet(p, b))
  {
    var f := WithChecksum(PresetCommand(p, b));
    WithChecksumValid(PresetCommand(p, b));
    BE16Split(b * 10);
    assert f[4..7] == [p, Hi(b * 10), Lo(b * 10)];
  }

  // ---------------------------------------------------------------------
  // Inbound notifications, as `_handle_notification` reads them.

  datatype Notification =
    | Ack                              // exactly 4 bytes (ACK2 or ACK3)
    | Ignored                          // any other length below 12
    | StatusOff                        // byte 6 is not 1
    | StatusColor(h: int, s: int, v: int)
    | ColorTooShort                    // mode 1 in 12 or 13 bytes: reading byte 12 or 13 raises IndexError
    | StatusPreset(preset: int, brightness: int)
    | StatusOtherMode(mode: int)       // power on, a mode other than 1 and 2

  /** The interpretation `_handle_notification` gives a notification. No
      checksum is checked on inbound frames. */
  function Decode(data: seq<byte>): (n: Notification)
    ensures n.Ack? <==> |data| == 4
    ensures n.Ignored? <==> |data| != 4 && |data| < 12
    ensures n.StatusOff? <==> |data| >= 12 && data[6] != 1
    ensures n.ColorTooShort? <==> 12 <= |data| < 14 && data[6] == 1 && data[7] == 1
    ensures n.StatusColor? ==> (|data| >= 14 && data[6] == 1 && data[7] == 1
      && 0 <= n.h < 65536 && 0 <= n.s <= 6553 && 0 <= n.v <= 6553)
    ensures n.StatusPreset? <==> |data| >= 12 && data[6] == 1 && data[7] == 2
    ensures n.StatusPreset? ==> 0 <= n.preset < 256 && 0 <= n.brightness <= 6553
    ensures n.StatusOtherMode? ==> n.mode == data[7] && n.mode != 1 && n.mode != 2
  {
    if |data| == 4 then Ack
    else if |data| < 12 then Ignored
    else if data[6] != 1 then StatusOff
    else if data[7] == 1 then
      if |data| < 14 then ColorTooShort
      else StatusColor(BE16(data[8], data[9]), BE16(data[10], data[11]) / 10, BE16(data[12], data[13]) / 10)
    else if data[7] == 2 then StatusPreset(data[8], BE16(data[9], data[10]) / 10)
    else StatusOtherMode(data[7])
  }

  /** The status a device reports, for the reference encoder below. */
  datatype Status = Off | On(mode: int) | Color(h: int, s: int, v: int) | Preset(preset: int, brightness: int)

  /** A status notification as the device lays it out: six header bytes the
      decoder does not read, power at byte 6, mode at byte 7, then the
      fields, with saturation, value and brightness in tenths. */
  function EncodeStatus(header: seq<byte>, st: Status): seq<byte>
    requires |header| == 6
    requires st.On? ==> 0 <= st.mode < 256
    requires st.Color? ==> 0 <= st.h < 65536 && 0 <= st.s <= 6553 && 0 <= st.v <= 6553
    requires st.Preset? ==> 0 <= st.preset < 256 && 0 <= st.brightness <= 6553
  {
    match st
    case Off => header + [0, 0, 0, 0, 0, 0]
    case On(m) => header + [1, m, 0, 0, 0, 0]
    case Color(h, s, v) => header + [1, 1, Hi(h), Lo(h), Hi(s * 10), Lo(s * 10), Hi(v * 10), Lo(v * 10)]
    case Preset(p, b) => header + [1, 2, p, Hi(b * 10), Lo(b * 10), 0]
  }

  /** Decoding a well-formed status notification recovers the status. */
  lemma DecodeEncodeStatus(header: seq<byte>, st: Status)
    requires |header| == 6
    requires st.On? ==> 0 <= st.mode < 256 && st.mode != 1 && st.mode != 2
    requires st.Color? ==> 0 <= st.h < 65536 && 0 <= st.s <= 6553 && 0 <= st.v <= 6553
    requires st.Preset? ==> 0 <= st.preset < 256 && 0 <= st.brightness <= 6553
    ensures Decode(EncodeStatus(header, st)) ==
      match st
      case Off => StatusOff
      case On(m) => StatusOtherMode(m)
      case Color(h, s, v) => StatusColor(h, s, v)
      case Preset(p, b) => StatusPreset(p, b)
  {
    match st
    case Off =>
    case On(m) =>
    case Color(h, s, v) =>
      BE16Split(h);
      BE16Split(s * 10);
      BE16Split(v * 10);
    case Preset(p, b) =>
      BE16Split(b * 10);
  }

  /** The worked example: power on, colour mode, H = 45, S = 250 tenths,
      V = 500 tenths (0x01F4). */
  lemma DecodeColorExample()
    ensures Decode([0, 0, 0, 0, 0, 0, 1, 1, 0, 45, 0, 250, 1, 244]) == StatusColor(45, 25, 50)
  {
  }
}
