/** The profile page codec: the fixed field layout of a profile page, the report
    rate byte, the 11-byte lighting records, the 4-byte button mappings and the
    serialiser that writes a profile page and packs its macros into macro pages. */
module ProfileCodec {
  import opened Wrappers
  import opened Bytes
  import opened Constants
  import opened Utils
  import Macro

  /** What the codec reads from the onboard-profile manager (`x8100`). */
  datatype Caps = Caps(
    numProfiles: nat,
    numPages: nat,
    pageSize: nat,
    numButtons: nat,
    numGButtons: nat,
    extendedReportRate: bool)

  /** The page geometry `read_macro_bytes` checks macro references against. */
  function MacroGeometry(c: Caps): Macro.Geometry
  {
    Macro.Geometry(c.numProfiles, c.numPages, c.pageSize)
  }

  // ---------------------------------------------------------------------------
  // Report rate

  /** The extended report rates in Hz, indexed by the stored byte. */
  const ExtendedRates: seq<int> := [125, 250, 500, 1000, 2000, 4000, 8000]

  /** The `report_rate` getter: the rate in Hz the stored byte stands for. */
  function RateOf(extended: bool, raw: int): (r: Result<int>)
    ensures extended ==> (r.Ok? <==> 0 <= raw < 7)
    ensures !extended ==> (r.Ok? <==> raw in {1, 2, 4, 8})
    ensures r.Ok? && extended ==> r.value == ExtendedRates[raw]
    ensures r.Ok? && !extended ==> r.value * raw == 1000
    ensures r.Err? ==> r.error == InvalidReportRate
  {
    if extended then
      if 0 <= raw < |ExtendedRates| then Ok(ExtendedRates[raw]) else Err(InvalidReportRate)
    else if raw in {1, 2, 4, 8} then Ok(1000 / raw)
    else Err(InvalidReportRate)
  }

  /** The byte the `report_rate` setter stores for a rate in Hz. */
  function RawOf(extended: bool, hz: int): (r: Result<byte>)
    ensures extended ==> (r.Ok? <==> hz in ExtendedRates)
    ensures !extended ==> (r.Ok? <==> hz in {1000, 500, 250, 125})
    ensures r.Ok? && extended ==> r.value < 7 && ExtendedRates[r.value] == hz
    ensures r.Ok? && !extended ==> r.value * hz == 1000
    ensures r.Err? ==> r.error == InvalidReportRate
  {
    if extended then
      if hz == 125 then Ok(0) else if hz == 250 then Ok(1) else if hz == 500 then Ok(2)
      else if hz == 1000 then Ok(3) else if hz == 2000 then Ok(4) else if hz == 4000 then Ok(5)
      else if hz == 8000 then Ok(6) else Err(InvalidReportRate)
    else if hz in {1000, 500, 250, 125} then Ok(1000 / hz)
    else Err(InvalidReportRate)
  }

  /** The getter and the setter are inverse: a rate the setter accepts reads back
      unchanged, and a byte the getter accepts is what the setter stores for its
      rate. */
  lemma RateRoundTrip(extended: bool, hz: int, raw: int)
    ensures RawOf(extended, hz).Ok? ==> RateOf(extended, RawOf(extended, hz).value) == Ok(hz)
    ensures RateOf(extended, raw).Ok? ==> RawOf(extended, RateOf(extended, raw).value) == Ok(raw)
  {
  }

  // ---------------------------------------------------------------------------
  // Lighting records

  /** A lighting zone as the structured document holds it; each field is present
      or absent like a key of the JSON object. `color` is the value of its hex
      text. */
  datatype RgbJson = RgbJson(
    mode: string,
    color: Option<int>,
    duration: Option<int>,
    brightness: Option<int>,
    bytes: Option<seq<byte>>)

  function Clamp(v: int, lo: int, hi: int): (r: int)
    requires lo <= hi
    ensures lo <= r <= hi
    ensures lo <= v <= hi ==> r == v
  {
    Min(Max(v, lo), hi)
  }

  /** The three low bytes of `struct.pack('>I', c)`. */
  function Low24(c: u32): (r: seq<byte>)
    ensures |r| == 3
  {
    BE32(c)[1..]
  }

  /** The value of a big-endian byte string, `int(b.hex(), 16)`. */
  function BEValue(b: seq<byte>): (n: nat)
  {
    if b == [] then 0 else BEValue(b[..|b| - 1]) * 0x100 + b[|b| - 1]
  }

  /** `Profile._rgb_from_json`: one 11-byte lighting record. */
  function RgbFromJson(t: Tables, j: RgbJson): (r: Result<seq<byte>>)
    ensures r.Ok? ==> |r.value| == 11
    ensures r.Ok? && HasName(t.rgbMode, j.mode) ==> r.value[0] == ValueOf(t.rgbMode, j.mode).value
    ensures r.Ok? && !HasName(t.rgbMode, j.mode) ==> j.mode == "unknown" && Some(r.value) == j.bytes
    ensures !HasName(t.rgbMode, j.mode) && j.mode != "unknown" ==> r == Err(InvalidRgbMode)
  {
    if HasName(t.rgbMode, j.mode) then
      var code := ValueOf(t.rgbMode, j.mode).value;
      if !IsByte(code) then Err(ByteRange)
      else
        var rgb := if j.color.Some? then j.color.value else 0;
        if !(0 <= rgb < 0x1_0000_0000) then Err(BadArgument)
        else if j.duration.None? || j.brightness.None? then Err(MissingField)
        else
          var color := Low24(rgb);
          var duration := Clamp(j.duration.value, 50, 60000);
          var brightness := Clamp(j.brightness.value, 0, 100);
          if j.mode == "off" then Ok([code] + Fill(10, 0))
          else if j.mode == "on" then Ok([code] + color + Fill(7, 0))
          else if j.mode == "cycling" then Ok([code] + Fill(5, 0) + BE16(duration) + [brightness] + Fill(2, 0))
          else if j.mode == "breathing" then Ok([code] + color + BE16(duration) + [0, brightness] + Fill(3, 0))
          else Err(InvalidRgbMode)
    else if j.mode == "unknown" then
      if j.bytes.None? then Err(MissingField)
      else if |j.bytes.value| != 11 then Err(WrongRgbSize)
      else Ok(j.bytes.value)
    else Err(InvalidRgbMode)
  }

  /** `Profile._rgb_to_json`: a mode with a known layout gives its color, duration
      and brightness; any other record is kept as raw bytes. */
  function RgbToJson(t: Tables, data: seq<byte>): (r: Result<RgbJson>)
    ensures r.Ok? ==> (r.value.bytes.Some? <==> r.value.mode !in ["off", "on", "cycling", "breathing"])
    ensures r.Ok? && r.value.bytes.Some? ==> r.value.bytes.value == data
    ensures r.Ok? && r.value.mode != "unknown" ==> |data| > 0 && NameOf(t.rgbMode, data[0]) == Some(r.value.mode)
  {
    var mode := if |data| > 0 && NameOf(t.rgbMode, data[0]).Some? then NameOf(t.rgbMode, data[0]).value else "unknown";
    var color := BEValue(Slice(data, 1, 4));
    if mode == "off" || mode == "on" then Ok(RgbJson(mode, Some(color), Some(0), Some(0), None))
    else if mode == "cycling" then
      if |data| < 9 then Err(ShortData)
      else Ok(RgbJson(mode, Some(color), Some(ReadBE16(data[6..8])), Some(data[8] as int), None))
    else if mode == "breathing" then
      if |data| < 8 then Err(ShortData)
      else Ok(RgbJson(mode, Some(color), Some(ReadBE16(data[4..6])), Some(data[7] as int), None))
    else Ok(RgbJson(mode, None, None, None, Some(data)))
  }

  /** A record the decoder reads back: the mode is one of the four with a known
      layout, its code is a byte naming no other mode, and the parameters are
      within the clamps. */
  predicate Encodable(t: Tables, j: RgbJson)
  {
    && j.mode in ["off", "on", "cycling", "breathing"]
    && Distinct(t.rgbMode)
    && HasName(t.rgbMode, j.mode)
    && IsByte(ValueOf(t.rgbMode, j.mode).value)
    && j.color.Some? && 0 <= j.color.value < 0x100_0000
    && j.duration.Some? && 50 <= j.duration.value <= 60000
    && j.brightness.Some? && 0 <= j.brightness.value <= 100
  }

  lemma BEValue3(b: seq<byte>)
    requires |b| == 3
    ensures BEValue(b) == (b[0] as int) * 0x1_0000 + (b[1] as int) * 0x100 + b[2]
  {
    assert b[..2][..1] == [b[0]];
    assert BEValue([b[0]]) == b[0] by {
      assert [b[0]][..0] == [];
    }
    assert BEValue(b[..2]) == (b[0] as int) * 0x100 + b[1];
  }

  lemma Low24Value(c: int)
    requires 0 <= c < 0x100_0000
    ensures BEValue(Low24(c)) == c
  {
    BEValue3(Low24(c));
  }

  /** Encoding a zone and decoding it gives back its mode and every parameter that
      mode stores: color, duration and brightness for breathing, duration and
      brightness for cycling, color for on. */
  lemma RgbRoundTrip(t: Tables, j: RgbJson)
    requires Encodable(t, j)
    ensures RgbFromJson(t, j).Ok?
    ensures var r := RgbToJson(t, RgbFromJson(t, j).value);
      && r.Ok? && r.value.mode == j.mode && r.value.bytes.None?
      && (j.mode in ["on", "breathing"] ==> r.value.color == j.color)
      && (j.mode in ["cycling", "breathing"] ==>
            r.value.duration == j.duration && r.value.brightness == j.brightness)
  {
    var code := ValueOf(t.rgbMode, j.mode).value;
    NameValueAgree(t.rgbMode, j.mode, code);
    var e := RgbFromJson(t, j).value;
    assert e[0] == code;
    Low24Value(j.color.value);
    BE16RoundTrip(j.duration.value);
    if j.mode == "on" || j.mode == "breathing" {
      assert Slice(e, 1, 4) == Low24(j.color.value);
    }
    if j.mode == "breathing" {
      assert e[4..6] == BE16(j.duration.value);
    }
    if j.mode == "cycling" {
      assert e[6..8] == BE16(j.duration.value);
    }
  }

  /** A record of a code no mode is named for survives decoding and encoding byte
      for byte. */
  lemma RgbRawRoundTrip(t: Tables, data: seq<byte>)
    requires |data| == 11 && !HasValue(t.rgbMode, data[0])
    requires !HasName(t.rgbMode, "unknown")
    ensures RgbToJson(t, data) == Ok(RgbJson("unknown", None, None, None, Some(data)))
    ensures RgbFromJson(t, RgbToJson(t, data).value) == Ok(data)
  {
  }

  /** A record whose mode is named but has no layout is kept as raw bytes on the
      way out and refused on the way back in. */
  lemma RgbOtherModeRejected(t: Tables, data: seq<byte>, mode: string)
    requires |data| == 11 && NameOf(t.rgbMode, data[0]) == Some(mode)
    requires mode !in ["off", "on", "cycling", "breathing", "unknown"]
    ensures RgbToJson(t, data) == Ok(RgbJson(mode, None, None, None, Some(data)))
    ensures RgbFromJson(t, RgbToJson(t, data).value).Err?
  {
    assert HasName(t.rgbMode, mode) by {
      var i :| 0 <= i < |t.rgbMode| && t.rgbMode[i] == Member(mode, data[0]);
    }
  }

  // ---------------------------------------------------------------------------
  // Bitwise operations on non-negative integers

  /** `a | b` */
  function BitOr(a: nat, b: nat): nat
    decreases a + b
  {
    if a == 0 && b == 0 then 0
    else 2 * BitOr(a / 2, b / 2) + (if a % 2 == 1 || b % 2 == 1 then 1 else 0)
  }

  /** The key word of a key mapping, `0x80020000 | flag | code`. */
  function KeyWord(flag: nat, code: nat): nat
  {
    BitOr(BitOr(0x8002_0000, flag), code)
  }

  /** `a & b` */
  function BitAnd(a: nat, b: nat): nat
    decreases a + b
  {
    if a == 0 || b == 0 then 0
    else 2 * BitAnd(a / 2, b / 2) + (if a % 2 == 1 && b % 2 == 1 then 1 else 0)
  }

  lemma {:induction false} OrBits(a: nat, b: nat, i: nat)
    ensures Macro.HasBit(BitOr(a, b), i) <==> Macro.HasBit(a, i) || Macro.HasBit(b, i)
  {
    if a == 0 && b == 0 {
      Macro.ZeroHasNoBits(i);
    } else if i > 0 {
      OrBits(a / 2, b / 2, i - 1);
    }
  }

  lemma {:induction false} AndBits(a: nat, b: nat, i: nat)
    ensures Macro.HasBit(BitAnd(a, b), i) <==> Macro.HasBit(a, i) && Macro.HasBit(b, i)
  {
    if a == 0 || b == 0 {
      Macro.ZeroHasNoBits(i);
    } else if i > 0 {
      AndBits(a / 2, b / 2, i - 1);
    }
  }

  /** Two numbers with the same bits are equal. */
  lemma {:induction false} SameBits(a: nat, b: nat)
    requires forall i: nat :: Macro.HasBit(a, i) <==> Macro.HasBit(b, i)
    ensures a == b
    decreases a + b
  {
    if a != 0 || b != 0 {
      assert Macro.HasBit(a, 0) <==> Macro.HasBit(b, 0);
      forall i: nat
        ensures Macro.HasBit(a / 2, i) <==> Macro.HasBit(b / 2, i)
      {
        assert Macro.HasBit(a, i + 1) <==> Macro.HasBit(b, i + 1);
      }
      SameBits(a / 2, b / 2);
    }
  }

  /** A number other than zero has a bit set. */
  lemma SomeBit(a: nat) returns (i: nat)
    requires a != 0
    ensures Macro.HasBit(a, i)
  {
    if forall j: nat :: !Macro.HasBit(a, j) {
      forall j: nat
        ensures Macro.HasBit(a, j) <==> Macro.HasBit(0, j)
      {
        Macro.ZeroHasNoBits(j);
      }
      SameBits(a, 0);
    }
    i :| Macro.HasBit(a, i);
  }

  /** A number below `2^n` has no bit at or above `n`. */
  lemma {:induction false} HighBitsClear(a: nat, n: nat, i: nat)
    requires a < Macro.Pow2(n) && i >= n
    ensures !Macro.HasBit(a, i)
  {
    if n == 0 {
      Macro.ZeroHasNoBits(i);
    } else {
      HighBitsClear(a / 2, n - 1, i - 1);
    }
  }

  /** A number whose bits all lie below `n` is below `2^n`. */
  lemma {:induction false} BitsBelow(a: nat, n: nat)
    requires forall i: nat :: Macro.HasBit(a, i) ==> i < n
    ensures a < Macro.Pow2(n)
  {
    if n == 0 {
      forall i: nat
        ensures Macro.HasBit(a, i) <==> Macro.HasBit(0, i)
      {
        Macro.ZeroHasNoBits(i);
      }
      SameBits(a, 0);
    } else {
      forall i: nat | Macro.HasBit(a / 2, i)
        ensures i < n - 1
      {
        assert Macro.HasBit(a, i + 1);
      }
      BitsBelow(a / 2, n - 1);
    }
  }

  /** The bits of `c * 2^n` are those of `c`, moved up by `n`. */
  lemma {:induction false} ShiftedBits(c: nat, n: nat, i: nat)
    ensures Macro.HasBit(c * Macro.Pow2(n), i) <==> i >= n && Macro.HasBit(c, i - n)
  {
    if n > 0 {
      var y := c * Macro.Pow2(n - 1);
      assert c * Macro.Pow2(n) == 2 * y;
      if i > 0 {
        ShiftedBits(c, n - 1, i - 1);
      }
    }
  }

  /** The bits of `2^n - 1` are those below `n`. */
  lemma {:induction false} LowMaskBits(n: nat, i: nat)
    ensures Macro.HasBit(Macro.Pow2(n) - 1, i) <==> i < n
  {
    if n == 0 {
      Macro.ZeroHasNoBits(i);
    } else if i > 0 {
      LowMaskBits(n - 1, i - 1);
    }
  }

  /** An OR of numbers without a common bit is their sum. */
  lemma {:induction false} DisjointOr(a: nat, b: nat)
    requires forall i: nat :: !(Macro.HasBit(a, i) && Macro.HasBit(b, i))
    ensures BitOr(a, b) == a + b
    decreases a + b
  {
    if a != 0 || b != 0 {
      assert !(Macro.HasBit(a, 0) && Macro.HasBit(b, 0));
      forall i: nat
        ensures !(Macro.HasBit(a / 2, i) && Macro.HasBit(b / 2, i))
      {
        assert !(Macro.HasBit(a, i + 1) && Macro.HasBit(b, i + 1));
      }
      DisjointOr(a / 2, b / 2);
    }
  }

  /** `a & b` is non-zero exactly when the two share a bit. */
  lemma AndNonZero(a: nat, b: nat)
    ensures BitAnd(a, b) != 0 <==> exists i: nat :: Macro.HasBit(a, i) && Macro.HasBit(b, i)
  {
    if BitAnd(a, b) != 0 {
      var i := SomeBit(BitAnd(a, b));
      AndBits(a, b, i);
    } else {
      forall i: nat
        ensures !(Macro.HasBit(a, i) && Macro.HasBit(b, i))
      {
        AndBits(a, b, i);
        Macro.ZeroHasNoBits(i);
      }
    }
  }

  // ---------------------------------------------------------------------------
  // Button mappings

  /** One button mapping of the structured document, by its `action`. */
  datatype KeymapJson =
    | ButtonAction(button: string)
    | KeyAction(modifiers: seq<string>, key: string)
    | MacroAction(reference: seq<byte>, toks: seq<Macro.Token>)
    | UnknownAction(raw: seq<byte>)
    | OtherAction(action: string)

  /** What `_keymap_from_json` gives: the four bytes of the entry, or the
      instructions of a macro, whose place is decided when the macros are packed. */
  datatype Binding = Raw(bytes: seq<byte>) | MacroOps(ops: seq<seq<byte>>)

  /** The names of the modifiers whose flag shares a bit with `flag`, in
      declaration order. The flag is below `0x10000`, so `flag & v` for a negative
      `v` is `flag & (v mod 0x10000)`. */
  function ModifierNames(mods: Table, flag: nat): (r: seq<string>)
    ensures forall n :: n in r ==> HasName(mods, n)
  {
    if mods == [] then []
    else
      var rest := ModifierNames(mods[1..], flag);
      assert forall n :: HasName(mods[1..], n) ==> HasName(mods, n) by {
        forall n | HasName(mods[1..], n)
          ensures HasName(mods, n)
        {
          var i :| 0 <= i < |mods[1..]| && mods[1..][i].name == n;
          assert mods[i + 1].name == n;
        }
      }
      if BitAnd(flag, mods[0].value % 0x1_0000) != 0 then [mods[0].name] + rest else rest
  }

  /** `Profile._keymap_to_json` on the four bytes of one entry (read as the hex
      text `keystr`): a mouse button code, a key with modifiers (`8002....`), a
      macro reference (`00......`, decoded from the device's memory and rendered)
      or unknown bytes. */
  function KeymapToJson(t: Tables, g: Macro.Geometry, read: int -> seq<byte>, fuel: nat,
                        k: seq<byte>): (r: Result<KeymapJson>)
    ensures k == [] ==> r.Err?
    ensures r.Ok? && r.value.ButtonAction? ==> Member(r.value.button, BEValue(k)) in t.mouseButton
    ensures r.Ok? && (r.value.KeyAction? || r.value.MacroAction? || r.value.UnknownAction?) ==>
      !HasValue(t.mouseButton, BEValue(k))
    ensures r.Ok? && r.value.KeyAction? ==> |k| >= 2 && k[..2] == [0x80, 0x02]
    ensures r.Ok? && r.value.MacroAction? ==> k[0] == 0 && BEValue(k) < 0x1_0000_0000
                                                 && r.value.reference == BE32(BEValue(k))
    ensures r.Ok? && r.value.UnknownAction? ==>
      BEValue(k) < 0x1_0000_0000 && r.value.raw == BE32(BEValue(k))
    ensures r.Ok? ==> !r.value.OtherAction?
  {
    if k == [] then Err(BadArgument)
    else
      var v := BEValue(k);
      if HasValue(t.mouseButton, v) then Ok(ButtonAction(NameOf(t.mouseButton, v).value))
      else if |k| >= 2 && k[0] == 0x80 && k[1] == 0x02 then
        var flag, key := BitAnd(v, 0xff00), BitAnd(v, 0xff);
        var name := if HasValue(t.keyCode, key) then NameOf(t.keyCode, key).value else "";
        assert k[..2] == [0x80, 0x02];
        Ok(KeyAction(ModifierNames(t.modifier, flag), name))
      else if v >= 0x1_0000_0000 then Err(BadArgument)
      else if k[0] == 0 then
        var ops :- Macro.Decode(t.macro, g, read, v, fuel);
        var toks :- Macro.Render(t, ops);
        Ok(MacroAction(BE32(v), toks))
      else Ok(UnknownAction(BE32(v)))
  }

  /** The flag the modifiers `names` add to `acc`; `None` once a negative value has
      been ORed in, since the result then stays negative. An unknown name is the
      failed assertion. */
  function ModifierFlag(mods: Table, names: seq<string>, acc: Option<nat>): (r: Result<Option<nat>>)
    ensures r.Ok? <==> forall n :: n in names ==> HasName(mods, n)
    ensures r.Err? ==> r.error == UnknownKey
  {
    if names == [] then Ok(acc)
    else match ValueOf(mods, names[0])
      case None => Err(UnknownKey)
      case Some(v) =>
        ModifierFlag(mods, names[1..], if acc.Some? && v >= 0 then Some(BitOr(acc.value, v)) else None)
  }

  /** `Profile._keymap_from_json`. */
  function KeymapFromJson(t: Tables, j: KeymapJson): (r: Result<Binding>)
    ensures r.Ok? && r.value.Raw? && !j.UnknownAction? ==> |r.value.bytes| == 4
    ensures r.Ok? && r.value.MacroOps? ==> j.MacroAction? && Macro.Parse(t, j.toks) == Ok(r.value.ops)
    ensures j.OtherAction? ==> r == Err(WrongKeymap)
    ensures j.ButtonAction? ==> (r.Ok? <==> HasName(t.mouseButton, j.button)
                                             && 0 <= ValueOf(t.mouseButton, j.button).value < 0x1_0000_0000)
  {
    match j
    case UnknownAction(raw) => Ok(Raw(raw))
    case ButtonAction(name) =>
      if !HasName(t.mouseButton, name) then Err(UnknownKey)
      else
        var v := ValueOf(t.mouseButton, name).value;
        if 0 <= v < 0x1_0000_0000 then Ok(Raw(BE32(v))) else Err(BadArgument)
    case KeyAction(names, key) =>
      var flag :- ModifierFlag(t.modifier, names, Some(0));
      var code := if HasName(t.keyCode, key) then ValueOf(t.keyCode, key).value else 0;
      if flag.None? || code < 0 then Err(BadArgument)
      else
        var v := KeyWord(flag.value, code);
        if v < 0x1_0000_0000 then Ok(Raw(BE32(v))) else Err(BadArgument)
    case MacroAction(_, toks) =>
      var ops :- Macro.Parse(t, toks);
      Ok(MacroOps(ops))
    case OtherAction(_) => Err(WrongKeymap)
  }

  /** `int(keystr, 16)` of four bytes is `struct.unpack('>I', ...)`. */
  lemma BEValue4(k: seq<byte>)
    requires |k| == 4
    ensures BEValue(k) == ReadBE32(k)
  {
    BEValue3(k[..3]);
    assert k[..3][..2] == k[..2];
    assert k[..3] == [k[0], k[1], k[2]];
  }

  lemma BEValueBE32(v: u32)
    ensures BEValue(BE32(v)) == v
  {
    BEValue4(BE32(v));
    BE32RoundTrip(v);
  }

  /** A button mapping encodes as its four-byte code and decodes to its name. */
  lemma ButtonRoundTrip(t: Tables, g: Macro.Geometry, read: int -> seq<byte>, fuel: nat, name: string)
    requires Distinct(t.mouseButton) && HasName(t.mouseButton, name)
    requires 0 <= ValueOf(t.mouseButton, name).value < 0x1_0000_0000
    ensures KeymapFromJson(t, ButtonAction(name)).Ok?
    ensures var b := KeymapFromJson(t, ButtonAction(name)).value;
      b.Raw? && KeymapToJson(t, g, read, fuel, b.bytes) == Ok(ButtonAction(name))
  {
    var v := ValueOf(t.mouseButton, name).value;
    BEValueBE32(v);
    NameValueAgree(t.mouseButton, name, v);
    assert HasValue(t.mouseButton, v) by {
      var i :| 0 <= i < |t.mouseButton| && t.mouseButton[i] == Member(name, v);
    }
  }

  /** Four bytes that are no mouse button, key or macro reference survive as an
      unknown mapping in both directions. */
  lemma UnknownRoundTrip(t: Tables, g: Macro.Geometry, read: int -> seq<byte>, fuel: nat, raw: seq<byte>)
    requires |raw| == 4 && !HasValue(t.mouseButton, BEValue(raw))
    requires raw[0] != 0 && raw[..2] != [0x80, 0x02]
    ensures KeymapToJson(t, g, read, fuel, raw) == Ok(UnknownAction(raw))
    ensures KeymapFromJson(t, UnknownAction(raw)) == Ok(Raw(raw))
  {
    BEValue4(raw);
    assert raw[..2] == [raw[0], raw[1]];
  }

  // Key mappings: `0x8002_0000 | modifier flags | key code`.

  /** A modifier flag lies in the second byte. */
  predicate FlagValue(v: int)
  {
    0 < v < 0x1_0000 && v % 0x100 == 0
  }

  /** What the key round trip relies on in the Modifier enumeration: names and
      values unique, every value a flag in the second byte, and no two flags
      sharing a bit. */
  ghost predicate ModifierFlags(mods: Table)
  {
    && Distinct(mods)
    && (forall i :: 0 <= i < |mods| ==> FlagValue(mods[i].value))
    && (forall i, j, b: nat ::
          0 <= i < |mods| && 0 <= j < |mods| && i != j && MemberBit(mods[i], b) ==> !MemberBit(mods[j], b))
  }

  /** Bit `b` is set in the member's value. */
  predicate MemberBit(m: Member, b: nat)
  {
    m.value >= 0 && Macro.HasBit(m.value as nat, b)
  }

  /** Bit `b` is the bit of one of the modifiers called in `names`. */
  ghost predicate InFlag(mods: Table, names: seq<string>, b: nat)
  {
    exists i :: 0 <= i < |mods| && mods[i].name in names && MemberBit(mods[i], b)
  }

  lemma FlagValueBits(v: nat, i: nat)
    requires FlagValue(v)
    ensures Macro.HasBit(v, i) ==> 8 <= i < 16
  {
    assert Macro.Pow2(8) == 0x100;
    assert Macro.Pow2(16) == 0x1_0000;
    assert v == (v / 0x100) * Macro.Pow2(8);
    ShiftedBits(v / 0x100, 8, i);
    if i >= 16 {
      HighBitsClear(v, 16, i);
    }
  }

  /** The flag ORed together from known modifiers has exactly their bits. */
  lemma {:induction false} FlagBits(mods: Table, names: seq<string>, acc: nat, b: nat)
    requires ModifierFlags(mods) && forall n :: n in names ==> HasName(mods, n)
    ensures ModifierFlag(mods, names, Some(acc)).Ok?
    ensures ModifierFlag(mods, names, Some(acc)).value.Some?
    ensures Macro.HasBit(ModifierFlag(mods, names, Some(acc)).value.value, b)
            <==> Macro.HasBit(acc, b) || InFlag(mods, names, b)
  {
    if names != [] {
      var n := names[0];
      var v := ValueOf(mods, n).value;
      var k :| 0 <= k < |mods| && mods[k] == Member(n, v);
      assert FlagValue(mods[k].value);
      OrBits(acc, v, b);
      FlagBits(mods, names[1..], BitOr(acc, v), b);
      if InFlag(mods, names, b) {
        var i :| 0 <= i < |mods| && mods[i].name in names && MemberBit(mods[i], b);
        if mods[i].name != n {
          assert mods[i].name in names[1..];
          assert InFlag(mods, names[1..], b);
        }
      }
      if InFlag(mods, names[1..], b) {
        var i :| 0 <= i < |mods| && mods[i].name in names[1..] && MemberBit(mods[i], b);
        assert mods[i].name in names;
      }
      if Macro.HasBit(v, b) {
        assert MemberBit(mods[k], b);
      }
    }
  }

  /** A modifier is listed exactly when its flag shares a bit with `flag`. */
  lemma {:induction false} ModifierNamesMember(mods: Table, flag: nat, m: string)
    ensures m in ModifierNames(mods, flag) <==>
      exists i :: 0 <= i < |mods| && mods[i].name == m && BitAnd(flag, mods[i].value % 0x1_0000) != 0
  {
    if mods != [] {
      ModifierNamesMember(mods[1..], flag, m);
      if exists i :: 0 <= i < |mods[1..]| && mods[1..][i].name == m
           && BitAnd(flag, mods[1..][i].value % 0x1_0000) != 0 {
        var i :| 0 <= i < |mods[1..]| && mods[1..][i].name == m
           && BitAnd(flag, mods[1..][i].value % 0x1_0000) != 0;
        assert mods[i + 1] == mods[1..][i];
      }
      if exists i :: 0 <= i < |mods| && mods[i].name == m && BitAnd(flag, mods[i].value % 0x1_0000) != 0 {
        var i :| 0 <= i < |mods| && mods[i].name == m && BitAnd(flag, mods[i].value % 0x1_0000) != 0;
        if i > 0 {
          assert mods[1..][i - 1] == mods[i];
        }
      }
    }
  }

  /** A listed modifier is one of `names`. */
  lemma ListedIsNamed(mods: Table, names: seq<string>, f: nat, m: string)
    requires ModifierFlags(mods)
    requires forall b: nat :: Macro.HasBit(f, b) ==> InFlag(mods, names, b)
    requires m in ModifierNames(mods, f)
    ensures m in names
  {
    ModifierNamesMember(mods, f, m);
    var i :| 0 <= i < |mods| && mods[i].name == m && BitAnd(f, mods[i].value % 0x1_0000) != 0;
    assert FlagValue(mods[i].value);
    var v: nat := mods[i].value;
    AndNonZero(f, v);
    var b: nat :| Macro.HasBit(f, b) && Macro.HasBit(v, b);
    assert MemberBit(mods[i], b);
    var j :| 0 <= j < |mods| && mods[j].name in names && MemberBit(mods[j], b);
    assert j == i;
  }

  /** One of `names` is listed. */
  lemma NamedIsListed(mods: Table, names: seq<string>, f: nat, m: string)
    requires ModifierFlags(mods) && HasName(mods, m) && m in names
    requires forall b: nat :: InFlag(mods, names, b) ==> Macro.HasBit(f, b)
    ensures m in ModifierNames(mods, f)
  {
    var i :| 0 <= i < |mods| && mods[i].name == m;
    assert FlagValue(mods[i].value);
    var v: nat := mods[i].value;
    var b := SomeBit(v);
    assert MemberBit(mods[i], b);
    assert InFlag(mods, names, b);
    assert Macro.HasBit(f, b) && Macro.HasBit(v, b);
    assert exists j: nat :: Macro.HasBit(f, j) && Macro.HasBit(v, j);
    AndNonZero(f, v);
    assert BitAnd(f, v) != 0;
    assert mods[i].value % 0x1_0000 == v;
    assert BitAnd(f, mods[i].value % 0x1_0000) != 0;
    ModifierNamesMember(mods, f, m);
  }

  /** Listing the modifiers of a flag made from `names` gives back those names. */
  lemma NamesOfFlag(mods: Table, names: seq<string>, f: nat)
    requires ModifierFlags(mods) && forall n :: n in names ==> HasName(mods, n)
    requires forall b: nat :: Macro.HasBit(f, b) <==> InFlag(mods, names, b)
    ensures forall m :: m in ModifierNames(mods, f) <==> m in names
  {
    forall m
      ensures m in ModifierNames(mods, f) <==> m in names
    {
      if m in ModifierNames(mods, f) {
        ListedIsNamed(mods, names, f, m);
      }
      if m in names {
        NamedIsListed(mods, names, f, m);
      }
    }
  }

  /** `2^8` and `2^16`. */
  lemma Pow2Bytes()
    ensures Macro.Pow2(8) == 0x100 && Macro.Pow2(16) == 0x1_0000
  {
    assert Macro.Pow2(4) == 16;
    assert Macro.Pow2(8) == 0x100;
    assert Macro.Pow2(12) == 0x1000;
  }

  /** The bits of the constant `0x8002_0000` lie in the top half. */
  lemma KeyTagBits(i: nat)
    ensures Macro.HasBit(0x8002_0000, i) ==> i >= 16
  {
    Pow2Bytes();
    ShiftedBits(0x8002, 16, i);
  }

  /** The bits of the masks `0xff` and `0xff00`. */
  lemma MaskBits(i: nat)
    ensures Macro.HasBit(0xff, i) <==> i < 8
    ensures Macro.HasBit(0xff00, i) <==> 8 <= i < 16
  {
    assert Macro.Pow2(8) == 0x100;
    LowMaskBits(8, i);
    ShiftedBits(0xff, 8, i);
    if i >= 8 {
      LowMaskBits(8, i - 8);
    }
  }

  /** `0x8002_0000 | f | code` for a flag in the second byte and a key code in the
      first is their sum. */
  lemma KeyWordValue(f: nat, code: nat)
    requires forall b: nat :: Macro.HasBit(f, b) ==> 8 <= b < 16
    requires code < 0x100
    ensures BitOr(0x8002_0000, f) == 0x8002_0000 + f
    ensures BitOr(0x8002_0000 + f, code) == 0x8002_0000 + f + code
    ensures KeyWord(f, code) == 0x8002_0000 + f + code
    ensures f + code < 0x1_0000
  {
    Pow2Bytes();
    forall i: nat
      ensures !(Macro.HasBit(0x8002_0000, i) && Macro.HasBit(f, i))
      ensures Macro.HasBit(code, i) ==> i < 8
    {
      KeyTagBits(i);
      if i >= 8 {
        HighBitsClear(code, 8, i);
      }
    }
    DisjointOr(0x8002_0000, f);
    forall i: nat
      ensures !(Macro.HasBit(0x8002_0000 + f, i) && Macro.HasBit(code, i))
    {
      OrBits(0x8002_0000, f, i);
      KeyTagBits(i);
    }
    DisjointOr(0x8002_0000 + f, code);
    DisjointOr(f, code);
    var low: nat := f + code;
    forall i: nat | Macro.HasBit(low, i)
      ensures i < 16
    {
      OrBits(f, code, i);
    }
    BitsBelow(low, 16);
  }

  /** Masking the key word with `0xff00` and `0xff` gives back the flag and the key
      code. */
  lemma KeyWordFields(f: nat, code: nat)
    requires forall b: nat :: Macro.HasBit(f, b) ==> 8 <= b < 16
    requires code < 0x100
    ensures BitAnd(0x8002_0000 + f + code, 0xff00) == f
    ensures BitAnd(0x8002_0000 + f + code, 0xff) == code
  {
    KeyWordValue(f, code);
    var v := 0x8002_0000 + f + code;
    assert Macro.Pow2(8) == 0x100;
    forall i: nat
      ensures Macro.HasBit(v, i) <==> Macro.HasBit(0x8002_0000, i) || Macro.HasBit(f, i) || Macro.HasBit(code, i)
    {
      OrBits(0x8002_0000 + f, code, i);
      OrBits(0x8002_0000, f, i);
    }
    forall i: nat
      ensures Macro.HasBit(BitAnd(v, 0xff00), i) <==> Macro.HasBit(f, i)
      ensures Macro.HasBit(BitAnd(v, 0xff), i) <==> Macro.HasBit(code, i)
    {
      AndBits(v, 0xff00, i);
      AndBits(v, 0xff, i);
      MaskBits(i);
      KeyTagBits(i);
      if i >= 8 {
        HighBitsClear(code, 8, i);
      }
    }
    SameBits(BitAnd(v, 0xff00), f);
    SameBits(BitAnd(v, 0xff), code);
  }

  /** The modifier flags of a key mapping hold exactly the bits of the
      named modifiers, all of them in the high byte of the key word. */
  lemma KeyFlagBits(t: Tables, names: seq<string>)
    requires ModifierFlags(t.modifier) && forall n :: n in names ==> HasName(t.modifier, n)
    ensures ModifierFlag(t.modifier, names, Some(0)).Ok? && ModifierFlag(t.modifier, names, Some(0)).value.Some?
    ensures var f := ModifierFlag(t.modifier, names, Some(0)).value.value;
            (forall b: nat :: Macro.HasBit(f, b) <==> InFlag(t.modifier, names, b))
            && (forall b: nat :: Macro.HasBit(f, b) ==> 8 <= b < 16)
  {
    FlagBits(t.modifier, names, 0, 0);
    var f := ModifierFlag(t.modifier, names, Some(0)).value.value;
    forall b: nat
      ensures Macro.HasBit(f, b) <==> InFlag(t.modifier, names, b)
    {
      FlagBits(t.modifier, names, 0, b);
      Macro.ZeroHasNoBits(b);
    }
    forall b: nat | Macro.HasBit(f, b)
      ensures 8 <= b < 16
    {
      var i :| 0 <= i < |t.modifier| && t.modifier[i].name in names && MemberBit(t.modifier[i], b);
      assert FlagValue(t.modifier[i].value);
      FlagValueBits(t.modifier[i].value, b);
    }
  }

  /** A key mapping encodes as `8002` followed by the modifier flags and the key
      code, and decodes to the same key and the same set of modifiers. */
  lemma KeyRoundTrip(t: Tables, g: Macro.Geometry, read: int -> seq<byte>, fuel: nat,
                     names: seq<string>, key: string)
    requires ModifierFlags(t.modifier) && forall n :: n in names ==> HasName(t.modifier, n)
    requires Distinct(t.keyCode) && HasName(t.keyCode, key)
    requires 0 <= ValueOf(t.keyCode, key).value < 0x100
    requires forall i :: 0 <= i < |t.mouseButton| ==> t.mouseButton[i].value / 0x1_0000 != 0x8002
    ensures KeymapFromJson(t, KeyAction(names, key)).Ok?
    ensures var b := KeymapFromJson(t, KeyAction(names, key)).value;
      && b.Raw? && |b.bytes| == 4 && b.bytes[..2] == [0x80, 0x02]
      && var r := KeymapToJson(t, g, read, fuel, b.bytes);
         && r.Ok? && r.value.KeyAction? && r.value.key == key
         && forall m :: m in r.value.modifiers <==> m in names
  {
    var code := ValueOf(t.keyCode, key).value;
    KeyFlagBits(t, names);
    var f := ModifierFlag(t.modifier, names, Some(0)).value.value;
    KeyWordValue(f, code);
    KeyEncodes(t, names, key, f, code);
    KeyWordDecodes(t, g, read, fuel, names, key, f, code);
  }

  /** A key mapping encodes as the key word `8002` + flags + code. */
  lemma KeyEncodes(t: Tables, names: seq<string>, key: string, f: nat, code: nat)
    requires HasName(t.keyCode, key) && code == ValueOf(t.keyCode, key).value < 0x100
    requires ModifierFlag(t.modifier, names, Some(0)) == Ok(Some(f))
    requires KeyWord(f, code) == 0x8002_0000 + f + code < 0x1_0000_0000
    ensures KeymapFromJson(t, KeyAction(names, key)) == Ok(Raw(BE32(0x8002_0000 + f + code)))
  {
    var flag := ModifierFlag(t.modifier, names, Some(0));
    assert flag.Ok? && flag.value == Some(f);
    assert (if HasName(t.keyCode, key) then ValueOf(t.keyCode, key).value else 0) == code;
  }

  /** The key word `8002` + flags + code decodes to the key and to the
      modifiers whose bits the flags hold. */
  lemma KeyWordDecodes(t: Tables, g: Macro.Geometry, read: int -> seq<byte>, fuel: nat,
                       names: seq<string>, key: string, f: nat, code: nat)
    requires ModifierFlags(t.modifier) && forall n :: n in names ==> HasName(t.modifier, n)
    requires Distinct(t.keyCode) && HasName(t.keyCode, key) && code == ValueOf(t.keyCode, key).value < 0x100
    requires forall i :: 0 <= i < |t.mouseButton| ==> t.mouseButton[i].value / 0x1_0000 != 0x8002
    requires forall b: nat :: Macro.HasBit(f, b) <==> InFlag(t.modifier, names, b)
    requires forall b: nat :: Macro.HasBit(f, b) ==> 8 <= b < 16
    ensures 0x8002_0000 + f + code < 0x1_0000_0000
    ensures var k := BE32(0x8002_0000 + f + code);
            k[..2] == [0x80, 0x02]
            && var r := KeymapToJson(t, g, read, fuel, k);
               r.Ok? && r.value.KeyAction? && r.value.key == key
               && forall m :: m in r.value.modifiers <==> m in names
  {
    KeyWordValue(f, code);
    KeyWordFields(f, code);
    var v := 0x8002_0000 + f + code;
    var k := BE32(v);
    BEValueBE32(v);
    assert v / 0x1_0000 == 0x8002;
    assert k[..2] == [0x80, 0x02];
    assert !HasValue(t.mouseButton, v);
    NameValueAgree(t.keyCode, key, code);
    NamesOfFlag(t.modifier, names, f);
  }
}
