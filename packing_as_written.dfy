/** What the packing loop of `profile_bytes_from_json` achieves as written.
    On every input, each recorded macro's slot in the profile page ends up
    holding a reference `[0, page, 0, cursor]` to a macro page of the
    profile's layout row, and at least one macro page is returned. When the
    pages are 256 bytes and all the macros fit in the first macro page
    without reaching the chain area, the loop as written packs exactly what
    the corrected loop packs, so every macro reads back as its instructions. */
module AsWrittenPacking {
  import opened Wrappers
  import opened Bytes
  import opened Constants
  import opened Macro
  import opened ProfileEncode
  import opened MacroPacking

  // ---------------------------------------------------------------------------
  // How much of a page the macros take

  /** The bytes the instructions `ops` take in a page. */
  function Span(ops: seq<seq<byte>>): nat
    decreases |ops|
  {
    if ops == [] then 0 else |ops[0]| + Span(ops[1..])
  }

  /** The bytes the macros `recs` take in a page, each with its end marker. */
  function Spans(recs: seq<MacroRec>): nat
    decreases |recs|
  {
    if recs == [] then 0 else Span(recs[0].ops) + 1 + Spans(recs[1..])
  }

  /** The instructions and the end marker of every macro fit in one page of
      `size` bytes and end at least 12 bytes before its end, so that neither
      loop ever writes a chain record. */
  predicate InOnePage(size: nat, recs: seq<MacroRec>)
  {
    Spans(recs) + 12 <= size
  }

  // ---------------------------------------------------------------------------
  // Both loops agree on a page they do not leave

  /** Writing one byte at `a` with the slice assignment `page[a:a+1] = [x]`. */
  lemma SliceOne(page: seq<byte>, a: nat, x: byte)
    requires a < |page|
    ensures SliceAssign(page, a, a + 1, [x]) == page[a := x]
  {
  }

  /** Writing `ops` from the cursor where they all fit before the last 12
      bytes: both loops write them one after the other, on the same page, and
      leave the cursor after them. */
  lemma {:induction false} PlaceInPage(mc: MacroControl, layout: seq<seq<int>>, pi: nat, size: nat,
                                       s: Packer, ops: seq<seq<byte>>)
    requires |s.page| == size && s.pos + Span(ops) + 12 <= size
    ensures PlaceOps(mc, layout, pi, size, AsWritten, s, ops) == PlaceOps(mc, layout, pi, size, Corrected, s, ops)
    ensures var r := PlaceOps(mc, layout, pi, size, AsWritten, s, ops);
            r.Ok? && r.value.first == s.first && r.value.done == s.done && r.value.idx == s.idx
            && r.value.pos == s.pos + Span(ops) && |r.value.page| == size
    decreases |ops|
  {
    if ops != [] {
      var op := ops[0];
      var page := SliceAssign(s.page, s.pos, s.pos + |op|, op);
      assert |page| == size;
      PlaceInPage(mc, layout, pi, size, s.(page := page, pos := s.pos + |op|), ops[1..]);
    }
  }

  /** The end marker: written after the instructions as written, packed as
      one more instruction when corrected; the same byte at the same place. */
  lemma {:induction false} EndInPage(mc: MacroControl, layout: seq<seq<int>>, pi: nat, size: nat,
                                     s: Packer, ops: seq<seq<byte>>)
    requires |s.page| == size && s.pos + Span(ops) + 13 <= size
    ensures PlaceOps(mc, layout, pi, size, AsWritten, s, ops).Ok?
    ensures var r := EndMacro(mc, PlaceOps(mc, layout, pi, size, AsWritten, s, ops).value);
            r == PlaceOps(mc, layout, pi, size, Corrected, s, Terminated(mc, Corrected, ops))
    decreases |ops|
  {
    PlaceInPage(mc, layout, pi, size, s, ops);
    if ops == [] {
      EndHere(mc, layout, pi, size, s);
    } else {
      var op := ops[0];
      var page := SliceAssign(s.page, s.pos, s.pos + |op|, op);
      assert |page| == size;
      var xs := Terminated(mc, Corrected, ops);
      assert xs[0] == op && xs[1..] == Terminated(mc, Corrected, ops[1..]);
      var s1 := s.(page := page, pos := s.pos + |op|);
      assert Room(AsWritten, s.pos, |op|, size) && Room(Corrected, s.pos, |op|, size);
      assert PlaceOps(mc, layout, pi, size, AsWritten, s, ops) == PlaceOps(mc, layout, pi, size, AsWritten, s1, ops[1..]);
      assert PlaceOps(mc, layout, pi, size, Corrected, s, xs) == PlaceOps(mc, layout, pi, size, Corrected, s1, xs[1..]);
      EndInPage(mc, layout, pi, size, s1, ops[1..]);
    }
  }

  /** The end marker alone: stored at the cursor as written, packed as a
      one-byte instruction when corrected. */
  lemma EndHere(mc: MacroControl, layout: seq<seq<int>>, pi: nat, size: nat, s: Packer)
    requires |s.page| == size && s.pos + 13 <= size
    ensures EndMacro(mc, s) == PlaceOps(mc, layout, pi, size, Corrected, s, [[mc.macroEnd]])
  {
    SliceOne(s.page, s.pos, mc.macroEnd);
    assert [[mc.macroEnd]][1..] == [];
  }

  /** A reference to a cursor below 256 is the same in one byte or in two. */
  lemma OneByteReference(page: int, pos: nat)
    requires pos < 0x100
    ensures Reference(AsWritten, page, pos) == Reference(Corrected, page, pos)
  {
    if IsByte(page) {
      assert BE16(pos) == [0, pos];
      assert [0, page as byte] + BE16(pos) == [0, page as byte, 0, pos as byte];
    }
  }

  /** One pass of the outer loop that stays in the page is the same in both
      loops and moves the cursor past the macro and its end marker. */
  lemma PackOneInPage(mc: MacroControl, layout: seq<seq<int>>, pi: nat, size: nat, s: Packer, m: MacroRec)
    requires |s.page| == size && size <= 0x100 && s.pos + Span(m.ops) + 13 <= size
    ensures PackOne(mc, layout, pi, size, AsWritten, s, m) == PackOne(mc, layout, pi, size, Corrected, s, m)
    ensures var r := PackOne(mc, layout, pi, size, AsWritten, s, m);
            r.Ok? ==> r.value.done == s.done && r.value.idx == s.idx
                      && r.value.pos == s.pos + Span(m.ops) + 1 && |r.value.page| == size
  {
    OneByteReference(if pi < |layout| && s.idx < |layout[pi]| then layout[pi][s.idx] else 0, s.pos);
    var page := LayoutAt(layout, pi, s.idx);
    if page.Ok? {
      var ref := Reference(AsWritten, page.value, s.pos);
      if ref.Ok? {
        var s1 := s.(first := SliceAssign(s.first, m.at, m.at + 4, ref.value));
        PlaceInPage(mc, layout, pi, size, s1, m.ops);
        EndInPage(mc, layout, pi, size, s1, m.ops);
      }
    }
  }

  /** The outer loop from a state whose cursor leaves room for all the
      remaining macros: both loops give the same state. */
  lemma {:induction false} PackFromInPage(mc: MacroControl, layout: seq<seq<int>>, pi: nat, size: nat,
                                          s: Packer, recs: seq<MacroRec>)
    requires |s.page| == size && size <= 0x100 && s.pos + Spans(recs) + 12 <= size
    ensures PackFrom(mc, layout, pi, size, AsWritten, s, recs) == PackFrom(mc, layout, pi, size, Corrected, s, recs)
    ensures var r := PackFrom(mc, layout, pi, size, AsWritten, s, recs);
            r.Ok? ==> r.value.done == s.done && |r.value.page| == size
    decreases |recs|
  {
    if recs != [] {
      PackOneInPage(mc, layout, pi, size, s, recs[0]);
      var one := PackOne(mc, layout, pi, size, AsWritten, s, recs[0]);
      if one.Ok? {
        PackFromInPage(mc, layout, pi, size, one.value, recs[1..]);
      }
    }
  }

  /** On 256-byte pages, macros that all fit in the first macro page are
      packed by the loop as written exactly as by the corrected loop, into the
      profile page and one macro page of 256 bytes. */
  lemma PackInPage(mc: MacroControl, layout: seq<seq<int>>, pi: nat, first: seq<byte>, recs: seq<MacroRec>)
    requires InOnePage(0x100, recs)
    ensures Pack(mc, layout, pi, 0x100, AsWritten, first, recs) == Pack(mc, layout, pi, 0x100, Corrected, first, recs)
    ensures var r := Pack(mc, layout, pi, 0x100, AsWritten, first, recs);
            r.Ok? ==> |r.value| == 2 && |r.value[1]| == 0x100
  {
    PackFromInPage(mc, layout, pi, 0x100, Packer(first, [], Fill(0x100, 0xFF), 0, 1), recs);
  }

  /** The read-back the loop as written achieves: on a device with 256-byte
      pages, once the pages it returns are written to the profile's layout
      row, the reference in the slot of every recorded macro decodes to that
      macro's instructions, as long as all the macros fit in the first macro
      page. */
  lemma AsWrittenReadBack(mc: MacroControl, g: Geometry, read: int -> seq<byte>,
                          layout: seq<seq<int>>, pi: nat, first: seq<byte>,
                          recs: seq<MacroRec>, pages: seq<seq<byte>>, fuel: nat, i: nat)
    requires Setting(mc, g, layout, pi, 0x100) && Slots(|first|, recs) && InOnePage(0x100, recs)
    requires forall k :: 0 <= k < |recs| ==> Elements(mc, 0x100, recs[k].ops)
    requires Pack(mc, layout, pi, 0x100, AsWritten, first, recs) == Ok(pages)
    requires forall k :: 1 <= k < |pages| && k < |layout[pi]| ==> read(layout[pi][k]) == pages[k]
    requires i < |recs|
    ensures |pages| == 2 && |pages[0]| == |first| && |pages[1]| == 0x100
    ensures Decode(mc, g, read, ReadBE32(pages[0][recs[i].at..recs[i].at + 4]), fuel)
         == Ok(Instructions(recs[i].ops))
  {
    PackInPage(mc, layout, pi, first, recs);
    PackedMacrosReadBack(mc, g, read, layout, pi, 0x100, first, recs, pages, fuel, i);
  }

  // ---------------------------------------------------------------------------
  // The references on every input

  /** A four-byte slot refers to a macro page of row `pi` of the layout:
      `[0, page, 0, cursor]` with `page` one of the row's macro pages. */
  ghost predicate RefersInRow(layout: seq<seq<int>>, pi: nat, slot: seq<byte>)
  {
    |slot| == 4 && slot[0] == 0 && slot[2] == 0 && pi < |layout|
    && exists idx :: 1 <= idx < |layout[pi]| && layout[pi][idx] == slot[1] as int
  }

  /** The inner loop as written leaves the profile page alone and only moves
      on along the layout row. */
  lemma {:induction false} PlaceKeepsFirst(mc: MacroControl, layout: seq<seq<int>>, pi: nat, size: nat,
                                           s: Packer, ops: seq<seq<byte>>)
    requires PlaceOps(mc, layout, pi, size, AsWritten, s, ops).Ok?
    ensures var t := PlaceOps(mc, layout, pi, size, AsWritten, s, ops).value;
            t.first == s.first && s.idx <= t.idx
    decreases |ops|
  {
    if ops != [] {
      var op := ops[0];
      if Room(AsWritten, s.pos, |op|, size) {
        var page := SliceAssign(s.page, s.pos, s.pos + |op|, op);
        PlaceKeepsFirst(mc, layout, pi, size, s.(page := page, pos := s.pos + |op|), ops[1..]);
      } else {
        var next := LayoutAt(layout, pi, s.idx + 1).value;
        var chain := ChainRecord(mc, next).value;
        var closed := s.done + [SliceAssign(s.page, s.pos, s.pos + 5, chain)];
        PlaceKeepsFirst(mc, layout, pi, size, Packer(s.first, closed, Fill(size, 0xFF), 0, s.idx + 1), ops[1..]);
      }
    }
  }

  /** One pass of the outer loop as written fills the macro's slot with a
      reference into the layout row and changes nothing else of the profile
      page. */
  lemma PackOneRefers(mc: MacroControl, layout: seq<seq<int>>, pi: nat, size: nat, s: Packer, m: MacroRec)
    requires s.idx >= 1 && m.at + 4 <= |s.first|
    requires PackOne(mc, layout, pi, size, AsWritten, s, m).Ok?
    ensures var t := PackOne(mc, layout, pi, size, AsWritten, s, m).value;
            t.idx >= s.idx && |t.first| == |s.first|
            && t.first[..m.at] == s.first[..m.at] && t.first[m.at + 4..] == s.first[m.at + 4..]
            && RefersInRow(layout, pi, t.first[m.at..m.at + 4])
  {
    var page := LayoutAt(layout, pi, s.idx).value;
    var ref := Reference(AsWritten, page, s.pos).value;
    var first := SliceAssign(s.first, m.at, m.at + 4, ref);
    assert first == s.first[..m.at] + ref + s.first[m.at + 4..];
    assert first[m.at..m.at + 4] == ref;
    assert first[m.at + 4..] == s.first[m.at + 4..];
    var s1 := s.(first := first);
    PlaceKeepsFirst(mc, layout, pi, size, s1, m.ops);
    assert layout[pi][s.idx] == ref[1] as int;
  }

  /** The outer loop as written: the profile page keeps its size and every
      byte before offset `n`, below all the slots, and every slot ends up
      referring into the layout row. */
  lemma {:induction false} PackFromRefers(mc: MacroControl, layout: seq<seq<int>>, pi: nat, size: nat,
                                          s: Packer, recs: seq<MacroRec>, n: nat)
    requires s.idx >= 1 && Slots(|s.first|, recs) && n <= |s.first|
    requires forall i :: 0 <= i < |recs| ==> n <= recs[i].at
    requires PackFrom(mc, layout, pi, size, AsWritten, s, recs).Ok?
    ensures var f := PackFrom(mc, layout, pi, size, AsWritten, s, recs).value;
            |f.first| == |s.first| && f.first[..n] == s.first[..n]
            && forall i :: 0 <= i < |recs| ==> RefersInRow(layout, pi, f.first[recs[i].at..recs[i].at + 4])
    decreases |recs|
  {
    if recs != [] {
      var m, more := recs[0], recs[1..];
      PackOneRefers(mc, layout, pi, size, s, m);
      var t := PackOne(mc, layout, pi, size, AsWritten, s, m).value;
      SlotsTail(|s.first|, recs);
      PackFromRefers(mc, layout, pi, size, t, more, m.at + 4);
      var f := PackFrom(mc, layout, pi, size, AsWritten, s, recs).value;
      assert f == PackFrom(mc, layout, pi, size, AsWritten, t, more).value;
      SliceWithin(f.first, t.first, m.at, 4);
      PrefixWithin(f.first, t.first, s.first, n, m.at, 4);
      forall i | 0 <= i < |recs| ensures RefersInRow(layout, pi, f.first[recs[i].at..recs[i].at + 4]) {
        if i > 0 {
          assert recs[i] == more[i - 1];
        }
      }
    }
  }

  /** The slots after the first stay in order, within the page and after the
      first one. */
  lemma SlotsTail(n: nat, recs: seq<MacroRec>)
    requires Slots(n, recs) && recs != []
    ensures Slots(n, recs[1..])
    ensures forall i :: 0 <= i < |recs| - 1 ==> recs[0].at + 4 <= recs[1..][i].at
  {
    var more := recs[1..];
    forall i | 0 <= i < |more| ensures more[i].at + 4 <= n && recs[0].at + 4 <= more[i].at {
      assert more[i] == recs[i + 1];
    }
    forall i, j | 0 <= i < j < |more| ensures more[i].at + 4 <= more[j].at {
      assert more[i] == recs[i + 1] && more[j] == recs[j + 1];
    }
  }

  /** Two pages that agree below `at + k` agree on the `k` bytes at `at`. */
  lemma SliceWithin(f: seq<byte>, t: seq<byte>, at: nat, k: nat)
    requires at + k <= |f| == |t| && f[..at + k] == t[..at + k]
    ensures f[at..at + k] == t[at..at + k]
  {
    assert f[..at + k][at..] == f[at..at + k];
    assert t[..at + k][at..] == t[at..at + k];
  }

  /** Agreeing below `at + k` with a page that agrees with a third below
      `at` means agreeing with the third below any `n <= at`. */
  lemma PrefixWithin(f: seq<byte>, t: seq<byte>, s: seq<byte>, n: nat, at: nat, k: nat)
    requires n <= at && at + k <= |f| == |t| == |s|
    requires f[..at + k] == t[..at + k] && t[..at] == s[..at]
    ensures f[..n] == s[..n]
  {
    assert f[..n] == f[..at + k][..n];
    assert t[..n] == t[..at + k][..n] == t[..at][..n];
    assert s[..n] == s[..at][..n];
  }

  /** Whatever the page size and however the macros fall across pages, the
      loop as written returns the profile page, still of its size, and at
      least one macro page, and every recorded macro's slot holds a
      reference `[0, page, 0, cursor]` to a macro page of the profile's
      layout row. */
  lemma PackRefers(mc: MacroControl, layout: seq<seq<int>>, pi: nat, size: nat, first: seq<byte>,
                   recs: seq<MacroRec>, pages: seq<seq<byte>>)
    requires Slots(|first|, recs)
    requires Pack(mc, layout, pi, size, AsWritten, first, recs) == Ok(pages)
    ensures |pages| >= 2 && |pages[0]| == |first|
    ensures forall i :: 0 <= i < |recs| ==> RefersInRow(layout, pi, pages[0][recs[i].at..recs[i].at + 4])
  {
    PackFromRefers(mc, layout, pi, size, Packer(first, [], FirstMacroPage(size, AsWritten), 0, 1), recs, 0);
  }
}
