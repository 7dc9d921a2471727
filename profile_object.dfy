/** `class Profile` of libs/HidppProfile.py: the attributes `load_profile_bin`
    sets, the report rate property and the encoder that builds a profile page
    from its structured document. */
module ProfileObject {
  import opened Wrappers
  import opened Bytes
  import opened Constants
  import opened Utils
  import opened ProfileCodec
  import opened ProfilePage
  import opened ProfileEncode

  /** `struct.unpack('<H', read(2))` repeated `count` times from `pos`. */
  method ReadDpis(data: seq<byte>, pos: nat, count: nat) returns (r: Result<Taken<seq<u16>>>)
    requires pos <= |data|
    ensures r == DpisFrom(data, pos, count, [])
  {
    var dpis: seq<u16> := [];
    var at: nat := pos;
    var i := 0;
    while i < count
      invariant 0 <= i <= count && at <= |data|
      invariant DpisFrom(data, at, count - i, dpis) == DpisFrom(data, pos, count, [])
    {
      var w := Read(data, at, 2);
      if |w.value| != 2 {
        return Err(ShortData);
      }
      dpis := dpis + [ReadLE16(w.value)];
      at := w.pos;
      i := i + 1;
    }
    return Ok(Taken(dpis, at));
  }

  /** `read(width)` repeated `count` times from `pos`. */
  method ReadWords(data: seq<byte>, pos: nat, count: nat, width: nat) returns (r: Taken<seq<seq<byte>>>)
    requires pos <= |data|
    ensures r == WordsFrom(data, pos, count, width, [])
  {
    var words: seq<seq<byte>> := [];
    var at: nat := pos;
    var i := 0;
    while i < count
      invariant 0 <= i <= count && at <= |data|
      invariant WordsFrom(data, at, count - i, width, words) == WordsFrom(data, pos, count, width, [])
    {
      var w := Read(data, at, width);
      words := words + [w.value];
      at := w.pos;
      i := i + 1;
    }
    return Taken(words, at);
  }

  /** The reads up to offset 32. */
  method ReadHead(data: seq<byte>) returns (r: Result<Taken<HeadFields>>)
    ensures r == ParseHead(data)
  {
    var head := Read(data, 0, 3);
    if |head.value| != 3 {
      return Err(ShortData);
    }
    var dpis := ReadDpis(data, head.pos, 5);
    if dpis.Err? {
      return Err(dpis.error);
    }
    var color := Read(data, dpis.value.pos, 3);
    var chunk1 := Read(data, color.pos, 32 - color.pos);
    return Ok(Taken(HeadFields(head.value[0], head.value[1], head.value[2], dpis.value.value,
                               color.value, chunk1.value), chunk1.pos));
  }

  /** The two banks of button mappings and their padding, to offset 160. */
  method ReadButtons(c: Caps, data: seq<byte>, pos: nat) returns (r: Taken<ButtonFields>)
    requires pos <= |data|
    ensures r == ParseButtons(c, data, pos)
  {
    var buttons := ReadWords(data, pos, c.numButtons, 4);
    var padding := Read(data, buttons.pos, 96 - buttons.pos);
    var gshift := ReadWords(data, padding.pos, c.numGButtons, 4);
    var gpadding := Read(data, gshift.pos, 160 - gshift.pos);
    return Taken(ButtonFields(buttons.value, padding.value, gshift.value, gpadding.value), gpadding.pos);
  }

  /** `for i in range(5): ret += struct.pack('<H', j['dpi_list'][i])` after the
      bytes in `acc`. */
  method EncodeDpis(list: seq<int>, acc: seq<byte>) returns (r: Result<seq<byte>>)
    ensures r == DpiBytesFrom(list, 0, acc)
  {
    var out := acc;
    for i := 0 to 5
      invariant DpiBytesFrom(list, i, out) == DpiBytesFrom(list, 0, acc)
    {
      if i >= |list| {
        return Err(MissingField);
      }
      if !(0 <= list[i] < 0x1_0000) {
        return Err(BadArgument);
      }
      out := out + LE16(list[i]);
    }
    return Ok(out);
  }

  /** `for x in j[buttons]`: each binding is appended, or a macro is recorded at
      the current length behind four placeholder bytes. */
  method EncodeBank(t: Tables, keys: seq<KeymapJson>, b: Body) returns (r: Result<Body>)
    ensures r == BankFrom(t, keys, b)
  {
    var bytes, macros := b.bytes, b.macros;
    for i := 0 to |keys|
      invariant BankFrom(t, keys[i..], Body(bytes, macros)) == BankFrom(t, keys, b)
    {
      assert keys[i..][1..] == keys[i + 1..];
      var binding := KeymapFromJson(t, keys[i]);
      if binding.Err? {
        return Err(binding.error);
      }
      match binding.value
      case Raw(code) =>
        bytes := bytes + code;
      case MacroOps(ops) =>
        macros := macros + [MacroRec(|bytes|, ops)];
        bytes := bytes + Placeholder;
    }
    assert keys[|keys|..] == [];
    return Ok(Body(bytes, macros));
  }

  /** `for rgb in j['rgb']: ret += self._rgb_from_json(rgb)` */
  method EncodeRgb(t: Tables, zones: seq<RgbJson>, acc: seq<byte>) returns (r: Result<seq<byte>>)
    ensures r == RgbFrom(t, zones, acc)
  {
    var out := acc;
    for i := 0 to |zones|
      invariant RgbFrom(t, zones[i..], out) == RgbFrom(t, zones, acc)
    {
      assert zones[i..][1..] == zones[i + 1..];
      var z := RgbFromJson(t, zones[i]);
      if z.Err? {
        return Err(z.error);
      }
      out := out + z.value;
    }
    assert zones[|zones|..] == [];
    return Ok(out);
  }

  /** The inner `while data:` loop: the instructions of one macro are written
      from the cursor on, a page that has no room left being closed with a chain
      to the next page of the layout row. */
  method PlaceMacro(mc: MacroControl, layout: seq<seq<int>>, pi: nat, size: nat, p: Packing,
                    s: Packer, ops: seq<seq<byte>>) returns (r: Result<Packer>)
    ensures r == PlaceOps(mc, layout, pi, size, p, s, ops)
  {
    var st := s;
    var i := 0;
    while i < |ops|
      invariant i <= |ops|
      invariant PlaceOps(mc, layout, pi, size, p, st, ops[i..]) == PlaceOps(mc, layout, pi, size, p, s, ops)
    {
      assert ops[i..] == [ops[i]] + ops[i + 1..];
      PlaceOpsCons(mc, layout, pi, size, p, st, ops[i], ops[i + 1..]);
      var next := PlaceOp(mc, layout, pi, size, p, st, ops[i]);
      if next.Err? {
        return Err(next.error);
      }
      st := next.value;
      i := i + 1;
    }
    assert ops[|ops|..] == [];
    return Ok(st);
  }

  /** One pass of the `while data:` loop: the instruction is written at the
      cursor when there is room; otherwise the page is closed with a chain to
      the next page of the row, and the instruction starts the new page
      (corrected) or is lost (as written). */
  method PlaceOp(mc: MacroControl, layout: seq<seq<int>>, pi: nat, size: nat, p: Packing,
                 s: Packer, op: seq<byte>) returns (r: Result<Packer>)
    ensures r == PlaceOps(mc, layout, pi, size, p, s, [op])
  {
    assert [op][1..] == [];
    if Room(p, s.pos, |op|, size) {
      return Ok(s.(page := SliceAssign(s.page, s.pos, s.pos + |op|, op), pos := s.pos + |op|));
    }
    var next := LayoutAt(layout, pi, s.idx + 1);
    if next.Err? {
      return Err(next.error);
    }
    var chain := ChainRecord(mc, next.value);
    if chain.Err? {
      return Err(chain.error);
    }
    var closed := s.done + [SliceAssign(s.page, s.pos, s.pos + 5, chain.value)];
    var st := Packer(s.first, closed, Fill(size, 0xFF), 0, s.idx + 1);
    if p == Corrected {
      st := st.(page := SliceAssign(st.page, 0, |op|, op), pos := |op|);
    }
    return Ok(st);
  }

  /** One pass of the outer loop: the reference replaces the placeholder, then
      the instructions and the end marker are written. */
  method PackMacro(mc: MacroControl, layout: seq<seq<int>>, pi: nat, size: nat, p: Packing,
                   s: Packer, m: MacroRec) returns (r: Result<Packer>)
    ensures r == PackOne(mc, layout, pi, size, p, s, m)
  {
    var page := LayoutAt(layout, pi, s.idx);
    if page.Err? {
      return Err(page.error);
    }
    var ref := Reference(p, page.value, s.pos);
    if ref.Err? {
      return Err(ref.error);
    }
    var first := SliceAssign(s.first, m.at, m.at + 4, ref.value);
    r := PlaceMacro(mc, layout, pi, size, p, s.(first := first), Terminated(mc, p, m.ops));
    if r.Err? || p == Corrected {
      return;
    }
    var placed := r.value;
    if placed.pos >= |placed.page| {
      return Err(PageIndex);
    }
    return Ok(placed.(page := placed.page[placed.pos := mc.macroEnd], pos := placed.pos + 1));
  }

  /** The outer loop over the recorded macros; the last page is appended whether
      or not a macro was written. */
  method PackMacros(mc: MacroControl, layout: seq<seq<int>>, pi: nat, size: nat, p: Packing,
                    first: seq<byte>, recs: seq<MacroRec>) returns (r: Result<seq<seq<byte>>>)
    ensures r == Pack(mc, layout, pi, size, p, first, recs)
  {
    var s := Packer(first, [], FirstMacroPage(size, p), 0, 1);
    for i := 0 to |recs|
      invariant PackFrom(mc, layout, pi, size, p, s, recs[i..])
                == PackFrom(mc, layout, pi, size, p, Packer(first, [], FirstMacroPage(size, p), 0, 1), recs)
    {
      assert recs[i..][1..] == recs[i + 1..];
      var ended := PackMacro(mc, layout, pi, size, p, s, recs[i]);
      if ended.Err? {
        return Err(ended.error);
      }
      s := ended.value;
    }
    assert recs[|recs|..] == [];
    return Ok([s.first] + s.done + [s.page]);
  }

  class Profile {
    /** `_report_rate`, the raw byte. */
    var reportRate: byte
    const caps: Caps
    /** `num_pages`, taken from the manager. */
    const numPages: nat
    var dpiDefault: byte
    var dpiShift: byte
    var dpiList: seq<u16>
    var color: seq<byte>
    var chunk1: seq<byte>
    var buttons: seq<seq<byte>>
    var buttonsPadding: seq<byte>
    var buttonsGshift: seq<seq<byte>>
    var buttonsGshiftPadding: seq<byte>
    /** The 48 bytes of the UTF-16 name. */
    var profileName: seq<byte>
    var rgb: seq<seq<byte>>
    var chunk2: seq<byte>
    var checksum: u16

    /** The loaded attributes, grouped as the page holds them. */
    function Fields(): ProfileFields
      reads this
    {
      ProfileFields(
        HeadFields(reportRate, dpiDefault, dpiShift, dpiList, color, chunk1),
        ButtonFields(buttons, buttonsPadding, buttonsGshift, buttonsGshiftPadding),
        TailFields(profileName, rgb, chunk2, checksum))
    }

    /** `Profile(x8100)`: the rate byte starts at 0 and the page count is the
        manager's. */
    constructor(caps: Caps)
      ensures this.caps == caps && numPages == caps.numPages && reportRate == 0
    {
      this.caps := caps;
      numPages := caps.numPages;
      reportRate := 0;
      dpiDefault, dpiShift, dpiList, color, chunk1 := 0, 0, [], [], [];
      buttons, buttonsPadding, buttonsGshift, buttonsGshiftPadding := [], [], [], [];
      profileName, rgb, chunk2, checksum := [], [], [], 0;
    }

    /** The `report_rate` getter: the rate in Hz the stored byte stands for. */
    function ReportRate(): (r: Result<int>)
      reads this
      ensures r == RateOf(caps.extendedReportRate, reportRate)
    {
      RateOf(caps.extendedReportRate, reportRate)
    }

    /** The `report_rate` setter: stores the byte for a supported rate, which the
        getter then reads back; an unsupported rate changes nothing. */
    method SetReportRate(hz: int) returns (r: Outcome)
      modifies this`reportRate
      ensures r.Pass? <==> RawOf(caps.extendedReportRate, hz).Ok?
      ensures r.Pass? ==> reportRate == RawOf(caps.extendedReportRate, hz).value && ReportRate() == Ok(hz)
      ensures r.Fail? ==> r.error == InvalidReportRate && reportRate == old(reportRate)
    {
      var raw := RawOf(caps.extendedReportRate, hz);
      if raw.Err? {
        return Fail(InvalidReportRate);
      }
      reportRate := raw.value;
      RateRoundTrip(caps.extendedReportRate, hz, 0);
      return Pass;
    }

    /** The profile page up to its checksum, with the macros it refers to; the
        requested rate goes through the `report_rate` setter. */
    method EncodeProfileBody(t: Tables, j: ProfileJson) returns (r: Result<Body>)
      modifies this`reportRate
      ensures r == EncodeBody(caps, t, j)
      ensures RequestedRate(j).Ok? && RawOf(caps.extendedReportRate, RequestedRate(j).value).Ok?
              ==> reportRate == RawOf(caps.extendedReportRate, RequestedRate(j).value).value
      ensures !(RequestedRate(j).Ok? && RawOf(caps.extendedReportRate, RequestedRate(j).value).Ok?)
              ==> reportRate == old(reportRate)
    {
      var hz: int;
      if j.extendedReportRate.Some? {
        hz := j.extendedReportRate.value;
      } else if j.reportRate.Some? {
        hz := j.reportRate.value;
      } else {
        return Err(MissingField);
      }
      var stored := SetReportRate(hz);
      if stored.Fail? {
        return Err(stored.error);
      }
      if !IsByte(j.dpiDefault) || !IsByte(j.dpiShift) {
        return Err(ByteRange);
      }
      var head := EncodeDpis(j.dpiList, [reportRate, j.dpiDefault as byte, j.dpiShift as byte]);
      if head.Err? {
        return Err(head.error);
      }
      if !(0 <= j.color < 0x1_0000_0000) {
        return Err(BadArgument);
      }
      var bytes := head.value + Low24(j.color) + j.chunk1;
      assert EncodeHead(reportRate, j) == Ok(bytes);
      if |j.buttons| * 4 + |j.buttonsPadding| != 64 {
        return Err(WrongButtonsSize);
      }
      var bank := EncodeBank(t, j.buttons, Body(bytes, []));
      if bank.Err? {
        return Err(bank.error);
      }
      var gbank := EncodeBank(t, j.buttonsGshift, Body(bank.value.bytes + j.buttonsPadding, bank.value.macros));
      if gbank.Err? {
        return Err(gbank.error);
      }
      var rgb := EncodeRgb(t, j.rgb, gbank.value.bytes + j.buttonsGshiftPadding + NameField(j.profileName));
      if rgb.Err? {
        return Err(rgb.error);
      }
      return Ok(Body(rgb.value + j.chunk2, gbank.value.macros));
    }

    /** `profile_bytes_from_json(j, profile_index)`: the checksummed profile page
        with the references filled in, then the macro pages, packed by the
        loop as written. */
    method ProfileBytesFromJson(t: Tables, layout: seq<seq<int>>, pi: nat, j: ProfileJson)
      returns (r: Result<seq<seq<byte>>>)
      modifies this`reportRate
      ensures r == ProfileBytes(caps, t, layout, pi, AsWritten, j)
      ensures RequestedRate(j).Ok? && RawOf(caps.extendedReportRate, RequestedRate(j).value).Ok?
              ==> ReportRate() == RequestedRate(j)
      ensures !(RequestedRate(j).Ok? && RawOf(caps.extendedReportRate, RequestedRate(j).value).Ok?)
              ==> reportRate == old(reportRate)
    {
      var body := EncodeProfileBody(t, j);
      if RequestedRate(j).Ok? && RawOf(caps.extendedReportRate, RequestedRate(j).value).Ok? {
        RateRoundTrip(caps.extendedReportRate, RequestedRate(j).value, 0);
      }
      if body.Err? {
        return Err(body.error);
      }
      var crc := Crc16Ccitt(body.value.bytes);
      var sum: u16 := crc;
      var first := body.value.bytes + BE16(sum);
      r := PackMacros(t.macro, layout, pi, caps.pageSize, AsWritten, first, body.value.macros);
    }

    /** Stores the attributes of the first region. */
    method SetHead(h: HeadFields)
      modifies this
      ensures Fields() == old(Fields()).(head := h)
    {
      reportRate, dpiDefault, dpiShift, dpiList, color, chunk1 :=
        h.reportRate, h.dpiDefault, h.dpiShift, h.dpiList, h.color, h.chunk1;
    }

    /** Stores the attributes of the button banks. */
    method SetButtons(k: ButtonFields)
      modifies this
      ensures Fields() == old(Fields()).(keys := k)
    {
      buttons, buttonsPadding, buttonsGshift, buttonsGshiftPadding :=
        k.buttons, k.buttonsPadding, k.buttonsGshift, k.buttonsGshiftPadding;
    }

    /** `load_profile_bin(data)`: the attributes are read from `data` through a
        cursor and stored as they are read; a short read stops the load and
        leaves what was stored before it, as `Loaded` says. */
    method LoadProfileBin(data: seq<byte>) returns (r: Outcome)
      modifies this
      ensures r.Pass? <==> ParseProfile(caps, data).Ok?
      ensures r.Pass? ==> Fields() == ParseProfile(caps, data).value
      ensures r.Fail? ==> r.error == ParseProfile(caps, data).error
      ensures Fields() == Loaded(caps, old(Fields()), data)
    {
      if |data| < 3 {
        return Fail(ShortData);
      }
      reportRate, dpiDefault, dpiShift := data[0], data[1], data[2];
      var head := ReadHead(data);
      if head.Err? {
        dpiList := DpisRead(data, 3, 5, []);
        assert Fields() == old(Fields()).(head := old(Fields()).head.(reportRate := data[0],
                             dpiDefault := data[1], dpiShift := data[2], dpiList := DpisRead(data, 3, 5, [])));
        return Fail(head.error);
      }
      SetHead(head.value.value);
      var keys := ReadButtons(caps, data, head.value.pos);
      SetButtons(keys.value);
      r := LoadTail(data, keys.pos);
    }

    /** The reads after offset 160: the name, the four lighting zones and the
        rest of the page are stored, then the checksum unless it is cut short. */
    method LoadTail(data: seq<byte>, pos: nat) returns (r: Outcome)
      requires pos <= |data|
      modifies this`profileName, this`rgb, this`chunk2, this`checksum
      ensures r.Pass? <==> ParseTail(caps, data, pos).Ok?
      ensures r.Fail? ==> r.error == ParseTail(caps, data, pos).error
      ensures Fields() == old(Fields()).(tail := TailLoaded(caps, old(Fields()).tail, data, pos))
    {
      var name := Read(data, pos, 48);
      var zones := ReadWords(data, name.pos, 4, 11);
      var rest := Read(data, zones.pos, caps.pageSize - 2 - zones.pos);
      var sum := Read(data, rest.pos, 2);
      assert TailLoaded(caps, Fields().tail, data, pos)
          == TailFields(name.value, zones.value, rest.value,
                        if |sum.value| == 2 then ReadBE16(sum.value) else checksum);
      profileName, rgb, chunk2 := name.value, zones.value, rest.value;
      if |sum.value| != 2 {
        return Fail(ShortData);
      }
      checksum := ReadBE16(sum.value);
      return Pass;
    }
  }
}
