/** The protocol constants, the two acknowledgement frames and the effect
    catalog (custom_components/hello_fairy_ble/const.py). */
module Constants {
  import opened Wrappers

  const CMD_PREFIX: int := 0xAA
  const CMD_POWER: int := 0x02
  const CMD_COLOR_PRESET: int := 0x03
  const MODE_COLOR: int := 0x01
  const MODE_PRESET: int := 0x02

  const ACK2: seq<int> := [0xAA, 0x02, 0x00, 0xAC]
  const ACK3: seq<int> := [0xAA, 0x03, 0x00, 0xAD]

  /** The lowest and highest preset id the device accepts. */
  const MIN_PRESET: int := 1
  const MAX_PRESET: int := 58

  /** EFFECT_PRESETS, in the dictionary's insertion order. */
  const EFFECT_PRESETS: seq<(string, int)> := [
    ("Blue White Dissolve", 41),
    ("Blue Sparkle", 56),
    ("White Sparkle", 57),
    ("Blue with Pink Sparkle", 8),
    ("Fireworks", 17),
    ("Xmas", 18),
    ("Candy Cane", 50),
    ("Halloween", 20),
    ("Red Gold", 40),
    ("July 4th", 39),
    ("Valentine", 46),
    ("St. Patrick", 47),
    ("May Day", 48),
    ("Snow Day", 54)
  ]

  /** `name in EFFECT_PRESETS` and `EFFECT_PRESETS[name]` in one: the id
      of the first entry with that name. */
  function LookupIn(entries: seq<(string, int)>, name: string): (r: Option<int>)
    ensures r.None? <==> forall i :: 0 <= i < |entries| ==> entries[i].0 != name
    ensures r.Some? ==> exists i :: 0 <= i < |entries| && entries[i] == (name, r.value)
  {
    if entries == [] then None
    else if entries[0].0 == name then Some(entries[0].1)
    else
      var r := LookupIn(entries[1..], name);
      assert forall i :: 1 <= i < |entries| ==> entries[i] == entries[1..][i - 1];
      r
  }

  function Lookup(name: string): (r: Option<int>)
    ensures r.Some? ==> MIN_PRESET <= r.value <= MAX_PRESET
  {
    CatalogIdsInPresetRange();
    LookupIn(EFFECT_PRESETS, name)
  }

  /** The reverse lookup the light entity does: the first name, in catalog
      order, whose id is `id`. */
  function NameForIdIn(entries: seq<(string, int)>, id: int): (r: Option<string>)
    ensures r.None? <==> forall i :: 0 <= i < |entries| ==> entries[i].1 != id
    ensures r.Some? ==> exists i :: (0 <= i < |entries| && entries[i] == (r.value, id)
      && forall j :: 0 <= j < i ==> entries[j].1 != id)
  {
    if entries == [] then None
    else if entries[0].1 == id then Some(entries[0].0)
    else
      var r := NameForIdIn(entries[1..], id);
      assert forall i :: 1 <= i < |entries| ==> entries[i] == entries[1..][i - 1];
      r
  }

  function NameForId(id: int): (r: Option<string>)
    ensures r.Some? ==> MIN_PRESET <= id <= MAX_PRESET
  {
    CatalogIdsInPresetRange();
    NameForIdIn(EFFECT_PRESETS, id)
  }

  /** `get_available_effects`: the catalog's names, in order. */
  function EffectNames(): (names: seq<string>)
    ensures |names| == |EFFECT_PRESETS|
    ensures forall i :: 0 <= i < |names| ==> names[i] == EFFECT_PRESETS[i].0
  {
    seq(|EFFECT_PRESETS|, i requires 0 <= i < |EFFECT_PRESETS| => EFFECT_PRESETS[i].0)
  }

  function Ids(): seq<int> {
    [41, 56, 57, 8, 17, 18, 50, 20, 40, 39, 46, 47, 48, 54]
  }

  lemma IdsAreCatalogIds()
    ensures |Ids()| == |EFFECT_PRESETS| == 14
    ensures forall i :: 0 <= i < 14 ==> EFFECT_PRESETS[i].1 == Ids()[i]
  {
  }

  /** Every catalog id lies in the range set_preset clamps to. */
  lemma CatalogIdsInPresetRange()
    ensures forall i :: 0 <= i < |EFFECT_PRESETS| ==> MIN_PRESET <= EFFECT_PRESETS[i].1 <= MAX_PRESET
  {
    IdsAreCatalogIds();
  }

  /** No two catalog entries share an id, so the reverse lookup has at most
      one answer. */
  lemma CatalogIdsDistinct()
    ensures forall i, j :: 0 <= i < j < |EFFECT_PRESETS| ==> EFFECT_PRESETS[i].1 != EFFECT_PRESETS[j].1
  {
    IdsAreCatalogIds();
  }

  /** No two catalog entries share a name (a dictionary has unique keys). */
  lemma CatalogNamesDistinct()
    ensures forall i, j :: 0 <= i < j < |EFFECT_PRESETS| ==> EFFECT_PRESETS[i].0 != EFFECT_PRESETS[j].0
  {
  }

  lemma CatalogExamples()
    ensures Lookup("Fireworks") == Some(17)
    ensures Lookup("Xmas") == Some(18)
    ensures |EFFECT_PRESETS| == 14
  {
    LookupAt(4);
    LookupAt(5);
  }

  /** Looking up the name of the entry at index k gives that entry's id. */
  lemma LookupAt(k: int)
    requires 0 <= k < |EFFECT_PRESETS|
    ensures Lookup(EFFECT_PRESETS[k].0) == Some(EFFECT_PRESETS[k].1)
  {
    CatalogNamesDistinct();
    var name := EFFECT_PRESETS[k].0;
    var r := Lookup(name);
    assert r.Some?;
    var i :| 0 <= i < |EFFECT_PRESETS| && EFFECT_PRESETS[i] == (name, r.value);
    assert i == k;
  }

  /** The forward and the reverse lookup are inverse to each other on the
      catalog. */
  lemma LookupReverse(name: string, id: int)
    ensures Lookup(name) == Some(id) <==> NameForId(id) == Some(name)
  {
    CatalogIdsDistinct();
    CatalogNamesDistinct();
    if Lookup(name) == Some(id) {
      var i :| 0 <= i < |EFFECT_PRESETS| && EFFECT_PRESETS[i] == (name, id);
      var n := NameForId(id);
      assert n.Some?;
      var j :| 0 <= j < |EFFECT_PRESETS| && EFFECT_PRESETS[j] == (n.value, id);
      assert i == j;
    }
    if NameForId(id) == Some(name) {
      var j :| 0 <= j < |EFFECT_PRESETS| && EFFECT_PRESETS[j] == (name, id);
      var m := Lookup(name);
      assert m.Some?;
      var i :| 0 <= i < |EFFECT_PRESETS| && EFFECT_PRESETS[i] == (name, m.value);
      assert i == j;
    }
  }

  /** ACK2 and ACK3 are four bytes long, the length the decoder takes for an
      acknowledgement, and end in the sum checksum of their first three bytes. */
  lemma AckFrames()
    ensures |ACK2| == 4 && |ACK3| == 4
    ensures ACK2[3] == (ACK2[0] + ACK2[1] + ACK2[2]) % 256
    ensures ACK3[3] == (ACK3[0] + ACK3[1] + ACK3[2]) % 256
    ensures ACK2[1] == CMD_POWER && ACK3[1] == CMD_COLOR_PRESET
  {
  }

  /** Every name get_available_effects lists is one set_effect accepts, and
      selects the id listed beside it. */
  lemma EffectNamesSelectable()
    ensures forall i :: 0 <= i < |EffectNames()| ==> Lookup(EffectNames()[i]) == Some(EFFECT_PRESETS[i].1)
  {
    forall i | 0 <= i < |EffectNames()|
      ensures Lookup(EffectNames()[i]) == Some(EFFECT_PRESETS[i].1)
    {
      LookupAt(i);
    }
  }
}
