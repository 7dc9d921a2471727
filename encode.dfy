/** `Profile.profile_bytes_from_json`: the profile page built from the structured
    document, and the macro pages the macros it references are packed into. */
module ProfileEncode {
  import opened Wrappers
  import opened Bytes
  import opened Constants
  import opened Utils
  import opened ProfileCodec
  import opened ProfilePage

  /** The structured document of one profile. Byte strings stand for the
      escaped text fields after decoding, `profileName` for the UTF-16LE
      encoding of the name and `color` for the value of its hex text; of the two
      report-rate keys either may be present. */
  datatype ProfileJson = ProfileJson(
    extendedReportRate: Option<int>, reportRate: Option<int>,
    dpiDefault: int, dpiShift: int, dpiList: seq<int>, color: int, chunk1: seq<byte>,
    buttons: seq<KeymapJson>, buttonsPadding: seq<byte>,
    buttonsGshift: seq<KeymapJson>, buttonsGshiftPadding: seq<byte>,
    profileName: seq<byte>, rgb: seq<RgbJson>, chunk2: seq<byte>)

  /** `j['extended_report_rate']` when present, else `j['report_rate']`. */
  function RequestedRate(j: ProfileJson): (r: Result<int>)
    ensures r.Err? <==> j.extendedReportRate.None? && j.reportRate.None?
  {
    if j.extendedReportRate.Some? then Ok(j.extendedReportRate.value)
    else if j.reportRate.Some? then Ok(j.reportRate.value)
    else Err(MissingField)
  }

  // ---------------------------------------------------------------------------
  // The profile page

  /** The little-endian words of `dpi_list[i]`, ..., `dpi_list[4]` after the bytes
      in `acc`: a short list is the IndexError, a value outside 16 bits the
      `struct.pack` error. */
  function DpiBytesFrom(list: seq<int>, i: nat, acc: seq<byte>): Result<seq<byte>>
    requires i <= 5
    decreases 5 - i
  {
    if i == 5 then Ok(acc)
    else if i >= |list| then Err(MissingField)
    else if !(0 <= list[i] < 0x1_0000) then Err(BadArgument)
    else DpiBytesFrom(list, i + 1, acc + LE16(list[i]))
  }

  /** The bytes up to the button mappings: rate, default and shift DPI index, five
      DPI values, the 24-bit color and `chunk1`. */
  function EncodeHead(raw: byte, j: ProfileJson): Result<seq<byte>>
  {
    if !IsByte(j.dpiDefault) || !IsByte(j.dpiShift) then Err(ByteRange)
    else
      var dpis :- DpiBytesFrom(j.dpiList, 0, [raw, j.dpiDefault, j.dpiShift]);
      if !(0 <= j.color < 0x1_0000_0000) then Err(BadArgument)
      else Ok(dpis + Low24(j.color) + j.chunk1)
  }

  /** A macro the page refers to: the offset of its four placeholder bytes and
      its instructions. */
  datatype MacroRec = MacroRec(at: nat, ops: seq<seq<byte>>)

  /** The page built so far and the macros recorded in it. */
  datatype Body = Body(bytes: seq<byte>, macros: seq<MacroRec>)

  /** The four bytes a macro reference takes until the macros are packed. */
  const Placeholder: seq<byte> := [0xFF, 0xFF, 0xFF, 0xFF]

  /** The loop over one bank of button mappings: a four-byte binding is
      appended, a macro is recorded at the current length and four placeholder
      bytes are appended. */
  function BankFrom(t: Tables, keys: seq<KeymapJson>, b: Body): Result<Body>
  {
    if keys == [] then Ok(b)
    else
      var binding :- KeymapFromJson(t, keys[0]);
      match binding
      case Raw(bytes) => BankFrom(t, keys[1..], Body(b.bytes + bytes, b.macros))
      case MacroOps(ops) =>
        BankFrom(t, keys[1..], Body(b.bytes + Placeholder, b.macros + [MacroRec(|b.bytes|, ops)]))
  }

  /** The lighting records of `zones`, after the bytes in `acc`. */
  function RgbFrom(t: Tables, zones: seq<RgbJson>, acc: seq<byte>): Result<seq<byte>>
  {
    if zones == [] then Ok(acc)
    else
      var z :- RgbFromJson(t, zones[0]);
      RgbFrom(t, zones[1..], acc + z)
  }

  /** `(name + b'\x00' * 48)[:48]` */
  function NameField(name: seq<byte>): (r: seq<byte>)
    ensures |r| == 48
  {
    (name + Fill(48, 0))[..48]
  }

  /** The profile page without its checksum, and the macros it refers to. The
      size assertion is on the first bank only. */
  function EncodeBody(c: Caps, t: Tables, j: ProfileJson): Result<Body>
  {
    var hz :- RequestedRate(j);
    var raw :- RawOf(c.extendedReportRate, hz);
    var head :- EncodeHead(raw, j);
    if |j.buttons| * 4 + |j.buttonsPadding| != 64 then Err(WrongButtonsSize)
    else
      var bank :- BankFrom(t, j.buttons, Body(head, []));
      var gbank :- BankFrom(t, j.buttonsGshift, Body(bank.bytes + j.buttonsPadding, bank.macros));
      var rgb :- RgbFrom(t, j.rgb, gbank.bytes + j.buttonsGshiftPadding + NameField(j.profileName));
      Ok(Body(rgb + j.chunk2, gbank.macros))
  }

  /** The page with the big-endian checksum of everything before it appended. */
  function Checksummed(body: seq<byte>): (r: seq<byte>)
    ensures |r| == |body| + 2
  {
    body + BE16(Crc16(body))
  }

  // ---------------------------------------------------------------------------
  // Packing the macros

  /** How the packer behaves. As written: the first macro page has 256 bytes
      whatever the page size; an instruction is written when it ends at most 11
      bytes before the page size, so the end marker after it can leave the cursor
      at `page_size - 10`, an offset the reader refuses; the instruction that does
      not fit is dropped; and the reference to a macro holds its cursor in one
      byte. Corrected: every macro page has the page size, an
      instruction is written when it ends more than 11 bytes before the page
      size, the instruction that does not fit opens the next page, the end
      marker is packed like an instruction and the reference to a macro holds
      its cursor in two bytes. */
  datatype Packing = AsWritten | Corrected

  /** Whether an instruction of `n` bytes is written at cursor `pos`. */
  predicate Room(p: Packing, pos: nat, n: nat, size: nat)
  {
    if p == AsWritten then pos + n <= size - 11 else pos + n < size - 11
  }

  /** The state of the packing loops: the profile page, the macro pages already
      finished, the page being filled, the cursor in it and the index of that
      page in the profile's row of the page layout. */
  datatype Packer = Packer(first: seq<byte>, done: seq<seq<byte>>, page: seq<byte>, pos: nat, idx: nat)

  /** `page_map[profile_index][idx]` */
  function LayoutAt(layout: seq<seq<int>>, pi: nat, idx: nat): (r: Result<int>)
    ensures r.Ok? <==> pi < |layout| && idx < |layout[pi]|
    ensures r.Ok? ==> r.value == layout[pi][idx]
    ensures r.Err? ==> r.error == LayoutIndex
  {
    if pi < |layout| && idx < |layout[pi]| then Ok(layout[pi][idx]) else Err(LayoutIndex)
  }

  /** The reference the profile page holds to a macro at `pos` in `page`. As
      written it is `bytearray([0, page, 0, pos])`, so the cursor must fit in one
      byte; corrected, the cursor takes the two low bytes, as the reader's
      `'>HH'` expects. */
  function Reference(p: Packing, page: int, pos: nat): (r: Result<seq<byte>>)
    ensures r.Ok? <==> IsByte(page) && pos < (if p == AsWritten then 0x100 else 0x1_0000)
    ensures r.Ok? ==> |r.value| == 4 && r.value[0] == 0 && BEValue(r.value) == page * 0x1_0000 + pos
  {
    if !(IsByte(page) && pos < (if p == AsWritten then 0x100 else 0x1_0000)) then Err(ByteRange)
    else if p == AsWritten then
      var v := [0, page as byte, 0, pos as byte];
      BEValue4(v);
      Ok(v)
    else
      var v := [0, page as byte] + BE16(pos);
      BEValue4(v);
      Ok(v)
  }

  /** `struct.pack('>BHH', next_page, page, 0)`: the jump to offset 0 of `page`. */
  function ChainRecord(mc: MacroControl, page: int): (r: Result<seq<byte>>)
    ensures r.Ok? <==> 0 <= page < 0x1_0000
    ensures r.Ok? ==> |r.value| == 5 && r.value[0] == mc.nextPage
                      && ReadBE16(r.value[1..3]) == page && ReadBE16(r.value[3..5]) == 0
  {
    if 0 <= page < 0x1_0000 then
      BE16RoundTrip(page);
      BE16RoundTrip(0);
      var v := [mc.nextPage] + BE16(page) + BE16(0);
      assert v[1..3] == BE16(page) && v[3..5] == BE16(0);
      Ok(v)
    else Err(BadArgument)
  }

  /** The inner `while data:` loop on the instructions `ops` of one macro. An
      instruction is written at the cursor when there is room for it; otherwise
      the page is closed with a chain to the next page of the layout row. */
  function PlaceOps(mc: MacroControl, layout: seq<seq<int>>, pi: nat, size: nat, p: Packing,
                    s: Packer, ops: seq<seq<byte>>): Result<Packer>
    decreases |ops|
  {
    if ops == [] then Ok(s)
    else
      var op := ops[0];
      if Room(p, s.pos, |op|, size) then
        var page := SliceAssign(s.page, s.pos, s.pos + |op|, op);
        PlaceOps(mc, layout, pi, size, p, s.(page := page, pos := s.pos + |op|), ops[1..])
      else
        var next :- LayoutAt(layout, pi, s.idx + 1);
        var chain :- ChainRecord(mc, next);
        var closed := s.done + [SliceAssign(s.page, s.pos, s.pos + 5, chain)];
        var blank := Fill(size, 0xFF);
        if p == AsWritten then
          PlaceOps(mc, layout, pi, size, p, Packer(s.first, closed, blank, 0, s.idx + 1), ops[1..])
        else
          var page := SliceAssign(blank, 0, |op|, op);
          PlaceOps(mc, layout, pi, size, p, Packer(s.first, closed, page, |op|, s.idx + 1), ops[1..])
  }

  /** The inner loop places one instruction, then the rest from where that
      left off; an error placing the first is the result. */
  lemma PlaceOpsCons(mc: MacroControl, layout: seq<seq<int>>, pi: nat, size: nat,
                     p: Packing, s: Packer, op: seq<byte>, rest: seq<seq<byte>>)
    ensures var first := PlaceOps(mc, layout, pi, size, p, s, [op]);
            PlaceOps(mc, layout, pi, size, p, s, [op] + rest)
            == if first.Ok? then PlaceOps(mc, layout, pi, size, p, first.value, rest) else Err(first.error)
  {
    assert ([op] + rest)[0] == op && ([op] + rest)[1..] == rest && [op][1..] == [];
  }

  /** `page[pos] = macro_end; pos += 1`; an index past the end of the page is
      the IndexError. */
  function EndMacro(mc: MacroControl, s: Packer): (r: Result<Packer>)
    ensures r.Ok? <==> s.pos < |s.page|
    ensures r.Ok? ==> r.value == s.(page := s.page[s.pos := mc.macroEnd], pos := s.pos + 1)
  {
    if s.pos < |s.page| then Ok(s.(page := s.page[s.pos := mc.macroEnd], pos := s.pos + 1))
    else Err(PageIndex)
  }

  /** What the inner loop packs for one macro: as written its instructions, the
      end marker being stored after the loop without a room check; corrected,
      the end marker is packed as one more instruction. */
  function Terminated(mc: MacroControl, p: Packing, ops: seq<seq<byte>>): seq<seq<byte>>
  {
    if p == AsWritten then ops else ops + [[mc.macroEnd]]
  }

  /** One pass of the outer loop: the reference to the current page and cursor
      replaces the macro's placeholder, then its instructions and the end marker
      are written. */
  function PackOne(mc: MacroControl, layout: seq<seq<int>>, pi: nat, size: nat, p: Packing,
                   s: Packer, m: MacroRec): Result<Packer>
  {
    var page :- LayoutAt(layout, pi, s.idx);
    var ref :- Reference(p, page, s.pos);
    var placed :- PlaceOps(mc, layout, pi, size, p, s.(first := SliceAssign(s.first, m.at, m.at + 4, ref)),
                           Terminated(mc, p, m.ops));
    if p == AsWritten then EndMacro(mc, placed) else Ok(placed)
  }

  /** The outer loop over the recorded macros. */
  function PackFrom(mc: MacroControl, layout: seq<seq<int>>, pi: nat, size: nat, p: Packing,
                    s: Packer, recs: seq<MacroRec>): Result<Packer>
    decreases |recs|
  {
    if recs == [] then Ok(s)
    else
      var ended :- PackOne(mc, layout, pi, size, p, s, recs[0]);
      PackFrom(mc, layout, pi, size, p, ended, recs[1..])
  }

  /** The first macro page before any macro is written. */
  function FirstMacroPage(size: nat, p: Packing): seq<byte>
  {
    if p == AsWritten then Fill(256, 0xFF) else Fill(size, 0xFF)
  }

  /** The pages to write: the profile page with its references filled in, then
      every macro page, the last one included even when no macro was written. */
  function Pack(mc: MacroControl, layout: seq<seq<int>>, pi: nat, size: nat, p: Packing,
                first: seq<byte>, recs: seq<MacroRec>): Result<seq<seq<byte>>>
  {
    var s :- PackFrom(mc, layout, pi, size, p, Packer(first, [], FirstMacroPage(size, p), 0, 1), recs);
    Ok([s.first] + s.done + [s.page])
  }

  /** `profile_bytes_from_json(j, profile_index)`: the checksum is computed before
      the references are filled in. */
  function ProfileBytes(c: Caps, t: Tables, layout: seq<seq<int>>, pi: nat, p: Packing,
                        j: ProfileJson): Result<seq<seq<byte>>>
  {
    var body :- EncodeBody(c, t, j);
    Pack(t.macro, layout, pi, c.pageSize, p, Checksummed(body.bytes), body.macros)
  }

  // ---------------------------------------------------------------------------
  // What the profile page holds

  /** The bytes a binding occupies in the page before the macros are packed. */
  function Slot(b: Binding): seq<byte>
  {
    if b.Raw? then b.bytes else Placeholder
  }

  /** The DPI loop succeeds exactly when the list has at least five entries and
      its first five are 16-bit values, and then appends their little-endian
      words. */
  lemma {:induction false} DpiBytesOk(list: seq<int>, i: nat, acc: seq<byte>)
    requires i <= 5
    ensures DpiBytesFrom(list, i, acc).Ok? <==> forall k :: i <= k < 5 ==> k < |list| && 0 <= list[k] < 0x1_0000
    ensures DpiBytesFrom(list, i, acc).Ok? && 5 <= |list| ==>
      DpiBytesFrom(list, i, acc).value == acc + Concat(LE16s(list[i..5]))
    decreases 5 - i
  {
    if i < 5 && i < |list| && 0 <= list[i] < 0x1_0000 {
      DpiBytesOk(list, i + 1, acc + LE16(list[i]));
      if DpiBytesFrom(list, i, acc).Ok? {
        assert list[i..5] == [list[i]] + list[i + 1..5];
      }
    }
  }

  /** A mapping whose raw bytes, if it has any, are the four of one entry. */
  predicate FourBytes(k: KeymapJson)
  {
    k.UnknownAction? ==> |k.raw| == 4
  }

  /** One pass of the bank loop. */
  function Next(b: Body, binding: Binding): Body
  {
    Body(b.bytes + Slot(binding),
         if binding.Raw? then b.macros else b.macros + [MacroRec(|b.bytes|, binding.ops)])
  }

  lemma BankStep(t: Tables, keys: seq<KeymapJson>, b: Body)
    requires keys != [] && KeymapFromJson(t, keys[0]).Ok?
    ensures BankFrom(t, keys, b) == BankFrom(t, keys[1..], Next(b, KeymapFromJson(t, keys[0]).value))
  {
  }

  lemma SlotSize(t: Tables, k: KeymapJson)
    requires KeymapFromJson(t, k).Ok? && FourBytes(k)
    ensures |Slot(KeymapFromJson(t, k).value)| == 4
  {
  }

  /** A bank of mappings is encoded binding by binding: the page grows by the
      four bytes of each. */
  lemma {:induction false} BankSlots(t: Tables, keys: seq<KeymapJson>, b: Body) returns (slots: seq<seq<byte>>)
    requires BankFrom(t, keys, b).Ok?
    requires forall i :: 0 <= i < |keys| ==> FourBytes(keys[i])
    ensures AllSized(slots, |keys|, 4)
    ensures forall i :: 0 <= i < |keys| ==>
      KeymapFromJson(t, keys[i]).Ok? && slots[i] == Slot(KeymapFromJson(t, keys[i]).value)
    ensures BankFrom(t, keys, b).value.bytes == b.bytes + Concat(slots)
  {
    if keys == [] {
      slots := [];
    } else {
      var binding := KeymapFromJson(t, keys[0]).value;
      BankStep(t, keys, b);
      SlotSize(t, keys[0]);
      forall i | 0 <= i < |keys| - 1 ensures FourBytes(keys[1..][i]) {
        assert keys[1..][i] == keys[i + 1];
      }
      var rest := BankSlots(t, keys[1..], Next(b, binding));
      slots := [Slot(binding)] + rest;
      assert slots[1..] == rest;
      assert Concat(slots) == Slot(binding) + Concat(rest);
      forall i | 0 < i < |keys|
        ensures KeymapFromJson(t, keys[i]).Ok? && slots[i] == Slot(KeymapFromJson(t, keys[i]).value)
      {
        assert keys[1..][i - 1] == keys[i];
      }
    }
  }

  /** Every macro of a bank is recorded, after those already recorded, at the
      offset of its placeholder. */
  lemma {:induction false} BankMacros(t: Tables, keys: seq<KeymapJson>, b: Body)
    requires BankFrom(t, keys, b).Ok?
    ensures var r := BankFrom(t, keys, b).value;
      && |b.bytes| <= |r.bytes| && r.bytes[..|b.bytes|] == b.bytes
      && |b.macros| <= |r.macros| && r.macros[..|b.macros|] == b.macros
      && (forall k :: |b.macros| <= k < |r.macros| ==> Recorded(r, k, |b.bytes|))
  {
    if keys != [] {
      var binding := KeymapFromJson(t, keys[0]).value;
      var b' := Next(b, binding);
      BankStep(t, keys, b);
      BankMacros(t, keys[1..], b');
      MacrosKept(BankFrom(t, keys, b).value, b, binding);
    }
  }

  /** What a body that extends `Next(b, binding)` keeps of `b`: its bytes and
      records as prefixes, and every record from `b`'s on at or after `b`'s end. */
  lemma MacrosKept(r: Body, b: Body, binding: Binding)
    requires var b' := Next(b, binding);
      && |b'.bytes| <= |r.bytes| && r.bytes[..|b'.bytes|] == b'.bytes
      && |b'.macros| <= |r.macros| && r.macros[..|b'.macros|] == b'.macros
      && (forall k :: |b'.macros| <= k < |r.macros| ==> Recorded(r, k, |b'.bytes|))
    ensures |b.bytes| <= |r.bytes| && r.bytes[..|b.bytes|] == b.bytes
    ensures |b.macros| <= |r.macros| && r.macros[..|b.macros|] == b.macros
    ensures forall k :: |b.macros| <= k < |r.macros| ==> Recorded(r, k, |b.bytes|)
  {
    var b' := Next(b, binding);
    PrefixOfPrefix(r.bytes, |b.bytes|, |b'.bytes|);
    PrefixOfPrefix(r.macros, |b.macros|, |b'.macros|);
    forall k | |b.macros| <= k < |r.macros|
      ensures Recorded(r, k, |b.bytes|)
    {
      if k < |b'.macros| {
        NewRecord(r, b, b', binding.ops);
      } else {
        assert Recorded(r, k, |b'.bytes|);
      }
    }
  }

  /** Macro `k` of `r` was recorded at or after offset `from`, and its four bytes
      are still the placeholder. */
  predicate Recorded(r: Body, k: nat, from: nat)
    requires k < |r.macros|
  {
    var m := r.macros[k];
    from <= m.at && m.at + 4 <= |r.bytes| && r.bytes[m.at..m.at + 4] == Placeholder
  }

  lemma PrefixOfPrefix<T>(s: seq<T>, a: nat, b: nat)
    requires a <= b <= |s|
    ensures s[..b][..a] == s[..a]
  {
  }

  lemma NewRecord(r: Body, b: Body, b': Body, ops: seq<seq<byte>>)
    requires |b'.bytes| <= |r.bytes| && r.bytes[..|b'.bytes|] == b'.bytes
    requires |b'.macros| <= |r.macros| && r.macros[..|b'.macros|] == b'.macros
    requires b'.bytes == b.bytes + Placeholder && b'.macros == b.macros + [MacroRec(|b.bytes|, ops)]
    ensures Recorded(r, |b.macros|, |b.bytes|)
  {
    var m := r.macros[|b.macros|];
    assert m == r.macros[..|b'.macros|][|b.macros|];
    assert r.bytes[m.at..m.at + 4] == r.bytes[..|b'.bytes|][|b.bytes|..];
  }

  /** The lighting loop appends the eleven bytes of each zone. */
  lemma {:induction false} RgbZones(t: Tables, zones: seq<RgbJson>, acc: seq<byte>) returns (records: seq<seq<byte>>)
    requires RgbFrom(t, zones, acc).Ok?
    ensures AllSized(records, |zones|, 11)
    ensures forall i :: 0 <= i < |zones| ==>
      RgbFromJson(t, zones[i]).Ok? && records[i] == RgbFromJson(t, zones[i]).value
    ensures RgbFrom(t, zones, acc).value == acc + Concat(records)
  {
    if zones == [] {
      records := [];
    } else {
      var z := RgbFromJson(t, zones[0]).value;
      var rest := RgbZones(t, zones[1..], acc + z);
      records := [z] + rest;
      forall i | 0 <= i < |zones|
        ensures RgbFromJson(t, zones[i]).Ok? && records[i] == RgbFromJson(t, zones[i]).value
      {
        if i > 0 {
          assert zones[1..][i - 1] == zones[i];
        }
      }
    }
  }

  /** The sizes the document must have for its page to have the fixed layout:
      one mapping per button of each bank, every field of its size, and four
      bytes in each raw mapping. The first bank's padding is checked by the
      encoder itself. */
  predicate Sized(c: Caps, j: ProfileJson)
  {
    && |j.chunk1| == 16
    && |j.buttons| == c.numButtons && |j.buttonsGshift| == c.numGButtons
    && |j.buttonsGshiftPadding| == 64 - 4 * c.numGButtons
    && |j.rgb| == 4 && |j.chunk2| == c.pageSize - 254
    && (forall i :: 0 <= i < |j.buttons| ==> FourBytes(j.buttons[i]))
    && (forall i :: 0 <= i < |j.buttonsGshift| ==> FourBytes(j.buttonsGshift[i]))
  }

  /** The intermediate values of a successful encoding. */
  lemma BodySteps(c: Caps, t: Tables, j: ProfileJson)
    returns (raw: byte, head: seq<byte>, bank: Body, gbank: Body, rgb: seq<byte>)
    requires EncodeBody(c, t, j).Ok?
    ensures RequestedRate(j).Ok? && RawOf(c.extendedReportRate, RequestedRate(j).value) == Ok(raw)
    ensures EncodeHead(raw, j) == Ok(head)
    ensures |j.buttons| * 4 + |j.buttonsPadding| == 64
    ensures BankFrom(t, j.buttons, Body(head, [])) == Ok(bank)
    ensures BankFrom(t, j.buttonsGshift, Body(bank.bytes + j.buttonsPadding, bank.macros)) == Ok(gbank)
    ensures RgbFrom(t, j.rgb, gbank.bytes + j.buttonsGshiftPadding + NameField(j.profileName)) == Ok(rgb)
    ensures EncodeBody(c, t, j).value == Body(rgb + j.chunk2, gbank.macros)
  {
    raw := RawOf(c.extendedReportRate, RequestedRate(j).value).value;
    head := EncodeHead(raw, j).value;
    bank := BankFrom(t, j.buttons, Body(head, [])).value;
    gbank := BankFrom(t, j.buttonsGshift, Body(bank.bytes + j.buttonsPadding, bank.macros)).value;
    rgb := RgbFrom(t, j.rgb, gbank.bytes + j.buttonsGshiftPadding + NameField(j.profileName)).value;
  }

  /** The head fields the encoded bytes before the buttons are made of. */
  lemma EncodedHead(raw: byte, j: ProfileJson) returns (h: HeadFields)
    requires EncodeHead(raw, j).Ok?
    ensures SerializeHead(h) == EncodeHead(raw, j).value
    ensures h.reportRate == raw && h.dpiDefault == j.dpiDefault && h.dpiShift == j.dpiShift
    ensures |j.dpiList| >= 5 && h.dpiList == j.dpiList[..5]
    ensures 0 <= j.color < 0x1_0000_0000 && h.color == Low24(j.color) && h.chunk1 == j.chunk1
  {
    var lead: seq<byte> := [raw, j.dpiDefault, j.dpiShift];
    DpiBytesOk(j.dpiList, 0, lead);
    var dl: seq<u16> := j.dpiList[..5];
    assert j.dpiList[0..5] == dl;
    h := HeadFields(raw, j.dpiDefault, j.dpiShift, dl, Low24(j.color), j.chunk1);
  }

  lemma Regroup(h: seq<byte>, b1: seq<byte>, b2: seq<byte>, b3: seq<byte>, b4: seq<byte>,
                t1: seq<byte>, t2: seq<byte>, t3: seq<byte>, t4: seq<byte>)
    ensures h + b1 + b2 + b3 + b4 + t1 + t2 + t3 + t4
         == (h) + (b1 + b2 + b3 + b4) + (t1 + t2 + t3 + t4)
  {
  }

  /** The fields the encoded page is made of. */
  lemma EncodedFields(c: Caps, t: Tables, j: ProfileJson) returns (f: ProfileFields)
    requires Fits(c) && Sized(c, j) && EncodeBody(c, t, j).Ok?
    ensures Shaped(c, f) && Serialize(f) == Checksummed(EncodeBody(c, t, j).value.bytes)
    ensures RequestedRate(j).Ok? && RawOf(c.extendedReportRate, RequestedRate(j).value) == Ok(f.head.reportRate)
    ensures f.head.dpiDefault == j.dpiDefault && f.head.dpiShift == j.dpiShift
    ensures |j.dpiList| >= 5 && f.head.dpiList == j.dpiList[..5]
    ensures 0 <= j.color < 0x1_0000_0000 && f.head.color == Low24(j.color) && f.head.chunk1 == j.chunk1
    ensures forall i :: 0 <= i < c.numButtons ==>
      KeymapFromJson(t, j.buttons[i]).Ok? && f.keys.buttons[i] == Slot(KeymapFromJson(t, j.buttons[i]).value)
    ensures forall i :: 0 <= i < c.numGButtons ==>
      KeymapFromJson(t, j.buttonsGshift[i]).Ok? && f.keys.buttonsGshift[i] == Slot(KeymapFromJson(t, j.buttonsGshift[i]).value)
    ensures f.keys.buttonsPadding == j.buttonsPadding && f.keys.buttonsGshiftPadding == j.buttonsGshiftPadding
    ensures f.tail.profileName == NameField(j.profileName) && f.tail.chunk2 == j.chunk2
    ensures forall i :: 0 <= i < 4 ==> RgbFromJson(t, j.rgb[i]) == Ok(f.tail.rgb[i])
    ensures f.tail.checksum == Crc16(EncodeBody(c, t, j).value.bytes)
  {
    var body := EncodeBody(c, t, j).value;
    var raw, head, bank, gbank, rgb := BodySteps(c, t, j);
    var h := EncodedHead(raw, j);
    var s1 := BankSlots(t, j.buttons, Body(head, []));
    var s2 := BankSlots(t, j.buttonsGshift, Body(bank.bytes + j.buttonsPadding, bank.macros));
    var name := NameField(j.profileName);
    var zones := RgbZones(t, j.rgb, gbank.bytes + j.buttonsGshiftPadding + name);
    var crc := BE16(Crc16(body.bytes));
    f := ProfileFields(h, ButtonFields(s1, j.buttonsPadding, s2, j.buttonsGshiftPadding),
                       TailFields(name, zones, j.chunk2, Crc16(body.bytes)));
    Regroup(head, Concat(s1), j.buttonsPadding, Concat(s2), j.buttonsGshiftPadding,
            name, Concat(zones), j.chunk2, crc);
  }

  /** The profile page the encoder builds loads back: the rate the document asks
      for, its DPI settings, color and byte fields, one binding per button (the
      placeholder for a macro), the padded name, the lighting records, and a
      checksum that verifies. */
  lemma EncodedPageLoads(c: Caps, t: Tables, j: ProfileJson)
    requires Fits(c) && Sized(c, j) && EncodeBody(c, t, j).Ok?
    ensures var page := Checksummed(EncodeBody(c, t, j).value.bytes);
      && |page| == c.pageSize
      && ParseProfile(c, page).Ok?
      && var f := ParseProfile(c, page).value;
      && Shaped(c, f)
      && RateOf(c.extendedReportRate, f.head.reportRate) == RequestedRate(j)
      && f.head.dpiDefault == j.dpiDefault && f.head.dpiShift == j.dpiShift
      && |j.dpiList| >= 5 && f.head.dpiList == j.dpiList[..5]
      && 0 <= j.color < 0x1_0000_0000 && f.head.color == Low24(j.color) && f.head.chunk1 == j.chunk1
      && (forall i :: 0 <= i < c.numButtons ==>
            KeymapFromJson(t, j.buttons[i]).Ok? && f.keys.buttons[i] == Slot(KeymapFromJson(t, j.buttons[i]).value))
      && (forall i :: 0 <= i < c.numGButtons ==>
            KeymapFromJson(t, j.buttonsGshift[i]).Ok?
            && f.keys.buttonsGshift[i] == Slot(KeymapFromJson(t, j.buttonsGshift[i]).value))
      && f.keys.buttonsPadding == j.buttonsPadding && f.keys.buttonsGshiftPadding == j.buttonsGshiftPadding
      && f.tail.profileName == NameField(j.profileName) && f.tail.chunk2 == j.chunk2
      && (forall i :: 0 <= i < 4 ==> RgbFromJson(t, j.rgb[i]) == Ok(f.tail.rgb[i]))
      && f.tail.checksum == Crc16(page[..c.pageSize - 2])
  {
    var body := EncodeBody(c, t, j).value;
    var f := EncodedFields(c, t, j);
    ParseSerialized(c, f, []);
    assert Serialize(f) + [] == Serialize(f);
    RateRoundTrip(c.extendedReportRate, RequestedRate(j).value, 0);
    assert Checksummed(body.bytes)[..c.pageSize - 2] == body.bytes;
  }
}
