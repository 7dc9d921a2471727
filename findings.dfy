/** The packing loop of `profile_bytes_from_json` as written, on inputs that
    show where it departs from what the reader and the page writer expect.
    The profile object packs as written; what holds of that loop on every
    input, and on macros that fit in one page, is in module AsWrittenPacking.
    The loop as evidently intended is `Packing.Corrected`, and what is proved
    about it is in module MacroPacking. */
module PackingAsWritten {
  import opened Wrappers
  import opened Bytes
  import opened Constants
  import opened Macro
  import opened ProfileEncode

  /** The first macro page is 256 bytes whatever the page size: for a device
      with 1024-byte pages, even a profile without macros yields a last page of
      the wrong size, which `write_memory_page` refuses. */
  lemma FirstMacroPageShort(mc: MacroControl, layout: seq<seq<int>>, pi: nat, first: seq<byte>)
    ensures Pack(mc, layout, pi, 1024, AsWritten, first, []) == Ok([first, Fill(256, 0xFF)])
    ensures |Pack(mc, layout, pi, 1024, AsWritten, first, []).value[1]| != 1024
  {
    var s := Packer(first, [], FirstMacroPage(1024, AsWritten), 0, 1);
    assert PackFrom(mc, layout, pi, 1024, AsWritten, s, []) == Ok(s);
    assert [s.first] + s.done + [s.page] == [first, Fill(256, 0xFF)];
  }

  /** The instruction that does not fit before the page break is never
      written: two macros that differ only in that instruction are packed into
      the same pages, so the reader cannot give both back. */
  lemma DroppedAtPageBreak(mc: MacroControl, layout: seq<seq<int>>, pi: nat, size: nat, s: Packer,
                           op1: seq<byte>, op2: seq<byte>, rest: seq<seq<byte>>)
    requires op1 != op2 && |op1| == |op2| && !Room(AsWritten, s.pos, |op1|, size)
    ensures PlaceOps(mc, layout, pi, size, AsWritten, s, [op1] + rest)
         == PlaceOps(mc, layout, pi, size, AsWritten, s, [op2] + rest)
  {
    assert ([op1] + rest)[0] == op1 && ([op1] + rest)[1..] == rest;
    assert ([op2] + rest)[0] == op2 && ([op2] + rest)[1..] == rest;
  }

  /** On a 256-byte page, a two-byte instruction that ends exactly 11 bytes
      before the end still fits, and the end marker after it leaves the cursor
      at 246, which is where the next macro starts. */
  lemma EndCursorAtLimit(mc: MacroControl, layout: seq<seq<int>>, pi: nat, s: Packer, op: seq<byte>, at: nat)
    requires s.pos == 243 && |s.page| == 256 && |op| == 2
    requires pi < |layout| && s.idx < |layout[pi]| && IsByte(layout[pi][s.idx])
    ensures PackOne(mc, layout, pi, 256, AsWritten, s, MacroRec(at, [op])).Ok?
    ensures var t := PackOne(mc, layout, pi, 256, AsWritten, s, MacroRec(at, [op])).value;
            t.pos == 246 && t.idx == s.idx
  {
    var ref := Reference(AsWritten, layout[pi][s.idx], s.pos).value;
    var s1 := s.(first := SliceAssign(s.first, at, at + 4, ref));
    SliceAssignInPlace(s.page, 243, op);
    var placed := s1.(page := SliceAssign(s.page, 243, 245, op), pos := 245);
    assert [op][0] == op && [op][1..] == [];
    assert PlaceOps(mc, layout, pi, 256, AsWritten, s1, [op]) == Ok(placed);
  }

  /** The reader refuses the reference to cursor 246 of a 256-byte page: a
      macro that starts where `EndCursorAtLimit` leaves the cursor cannot be
      read back. */
  lemma LimitReferenceRefused(mc: MacroControl, g: Geometry, read: int -> seq<byte>, page: int, fuel: nat)
    requires g.pageSize == 256 && IsByte(page)
    ensures Reference(AsWritten, page, 246).Ok?
    ensures Decode(mc, g, read, ReadBE32(Reference(AsWritten, page, 246).value), fuel) == Err(WrongOffset)
  {
    var ref := Reference(AsWritten, page, 246).value;
    ProfileCodec.BEValue4(ref);
    var offset := ReadBE32(ref);
    assert offset == page * 0x1_0000 + 246;
    assert offset / 0x1_0000 == page && offset % 0x1_0000 == 246;
  }

  /** On a device with 1024-byte pages the room check lets a macro run past
      byte 255 of the (256-byte) first macro page, and the next macro's
      reference, which holds the cursor in one byte, cannot be built. */
  lemma CursorOutgrowsReference(mc: MacroControl, layout: seq<seq<int>>, pi: nat, s: Packer,
                                op: seq<byte>, at: nat, m: MacroRec)
    requires s.pos == 250 && |s.page| == 256 && |op| == 5
    requires pi < |layout| && s.idx < |layout[pi]| && IsByte(layout[pi][s.idx])
    ensures PackOne(mc, layout, pi, 1024, AsWritten, s, MacroRec(at, [op])).Ok?
    ensures var t := PackOne(mc, layout, pi, 1024, AsWritten, s, MacroRec(at, [op])).value;
            t.pos == 256 && PackOne(mc, layout, pi, 1024, AsWritten, t, m) == Err(ByteRange)
  {
    var ref := Reference(AsWritten, layout[pi][s.idx], s.pos).value;
    var s1 := s.(first := SliceAssign(s.first, at, at + 4, ref));
    SliceAssignInPlace(s.page, 250, op);
    var placed := s1.(page := SliceAssign(s.page, 250, 255, op), pos := 255);
    assert [op][0] == op && [op][1..] == [];
    assert PlaceOps(mc, layout, pi, 1024, AsWritten, s1, [op]) == Ok(placed);
  }
}
