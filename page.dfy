/** The layout of a profile page: how `load_profile_bin` cuts a page into its
    fields through a byte stream, and the concatenation of those fields back into
    a page. */
module ProfilePage {
  import opened Wrappers
  import opened Bytes
  import opened ProfileCodec

  /** `io.BytesIO.read(n)` at cursor `pos`: `n` bytes or what is left of them, and
      everything that is left for a negative `n`. */
  datatype Taken<T> = Taken(value: T, pos: nat)

  function Read(data: seq<byte>, pos: nat, n: int): (r: Taken<seq<byte>>)
    requires pos <= |data|
    ensures r.pos == pos + |r.value| <= |data| && r.value == data[pos..r.pos]
    ensures n >= 0 ==> |r.value| == Min(n, |data| - pos)
    ensures n < 0 ==> r.pos == |data|
  {
    var end := if n < 0 then |data| else Min(pos + n, |data|);
    Taken(data[pos..end], end)
  }

  /** `count` successive reads of `width` bytes, after the chunks in `acc`. */
  function WordsFrom(data: seq<byte>, pos: nat, count: nat, width: nat, acc: seq<seq<byte>>): (r: Taken<seq<seq<byte>>>)
    requires pos <= |data|
    ensures pos <= r.pos <= |data| && r.pos <= pos + count * width
    decreases count
  {
    if count == 0 then Taken(acc, pos)
    else
      var w := Read(data, pos, width);
      WordsFrom(data, w.pos, count - 1, width, acc + [w.value])
  }

  /** `count` successive `struct.unpack('<H', read(2))`, after the values in `acc`;
      a short read is the unpack error. */
  function DpisFrom(data: seq<byte>, pos: nat, count: nat, acc: seq<u16>): (r: Result<Taken<seq<u16>>>)
    requires pos <= |data|
    ensures r.Ok? ==> pos <= r.value.pos <= |data| && r.value.pos <= pos + 2 * count
    decreases count
  {
    if count == 0 then Ok(Taken(acc, pos))
    else
      var w := Read(data, pos, 2);
      if |w.value| != 2 then Err(ShortData)
      else DpisFrom(data, w.pos, count - 1, acc + [ReadLE16(w.value)])
  }

  /** The attributes `load_profile_bin` sets, by region: the settings before
      offset 32, the two banks of button mappings up to offset 160, and the name,
      lighting and trailer after it. The name is kept as its 48 bytes. */
  datatype HeadFields = HeadFields(
    reportRate: byte, dpiDefault: byte, dpiShift: byte, dpiList: seq<u16>,
    color: seq<byte>, chunk1: seq<byte>)

  datatype ButtonFields = ButtonFields(
    buttons: seq<seq<byte>>, buttonsPadding: seq<byte>,
    buttonsGshift: seq<seq<byte>>, buttonsGshiftPadding: seq<byte>)

  datatype TailFields = TailFields(
    profileName: seq<byte>, rgb: seq<seq<byte>>, chunk2: seq<byte>, checksum: u16)

  datatype ProfileFields = ProfileFields(head: HeadFields, keys: ButtonFields, tail: TailFields)

  /** The reads up to offset 32. */
  function ParseHead(data: seq<byte>): (r: Result<Taken<HeadFields>>)
    ensures r.Ok? ==> r.value.pos <= |data|
  {
    var head := Read(data, 0, 3);
    if |head.value| != 3 then Err(ShortData)
    else
      var dpis :- DpisFrom(data, head.pos, 5, []);
      var color := Read(data, dpis.pos, 3);
      var chunk1 := Read(data, color.pos, 32 - color.pos);
      Ok(Taken(HeadFields(head.value[0], head.value[1], head.value[2], dpis.value,
                          color.value, chunk1.value), chunk1.pos))
  }

  /** The reads of the two button banks and their padding, to offset 160. */
  function ParseButtons(c: Caps, data: seq<byte>, pos: nat): (r: Taken<ButtonFields>)
    requires pos <= |data|
    ensures r.pos <= |data|
  {
    var buttons := WordsFrom(data, pos, c.numButtons, 4, []);
    var padding := Read(data, buttons.pos, 96 - buttons.pos);
    var gshift := WordsFrom(data, padding.pos, c.numGButtons, 4, []);
    var gpadding := Read(data, gshift.pos, 160 - gshift.pos);
    Taken(ButtonFields(buttons.value, padding.value, gshift.value, gpadding.value), gpadding.pos)
  }

  /** The reads after offset 160: name, lighting zones, the rest of the page and
      the checksum. */
  function ParseTail(c: Caps, data: seq<byte>, pos: nat): (r: Result<TailFields>)
    requires pos <= |data|
  {
    var name := Read(data, pos, 48);
    var rgb := WordsFrom(data, name.pos, 4, 11, []);
    var chunk2 := Read(data, rgb.pos, c.pageSize - 2 - rgb.pos);
    var sum := Read(data, chunk2.pos, 2);
    if |sum.value| != 2 then Err(ShortData)
    else Ok(TailFields(name.value, rgb.value, chunk2.value, ReadBE16(sum.value)))
  }

  /** `Profile.load_profile_bin`: the fields read, in order, from a page. */
  function ParseProfile(c: Caps, data: seq<byte>): Result<ProfileFields>
  {
    var head :- ParseHead(data);
    var keys := ParseButtons(c, data, head.pos);
    var tail :- ParseTail(c, data, keys.pos);
    Ok(ProfileFields(head.value, keys.value, tail))
  }

  /** The values the DPI loop has appended when it stops: every whole
      little-endian word read before the count runs out or a read comes up
      short. */
  function DpisRead(data: seq<byte>, pos: nat, count: nat, acc: seq<u16>): (r: seq<u16>)
    requires pos <= |data|
    ensures |r| == |acc| + Min(count, (|data| - pos) / 2) && r[..|acc|] == acc
    ensures DpisFrom(data, pos, count, acc).Ok? ==> DpisFrom(data, pos, count, acc).value.value == r
    decreases count
  {
    if count == 0 then acc
    else
      var w := Read(data, pos, 2);
      if |w.value| != 2 then acc
      else DpisRead(data, w.pos, count - 1, acc + [ReadLE16(w.value)])
  }

  /** Value `i` after `acc` is the `i`-th little-endian word from `pos`. */
  lemma {:induction false} DpisReadWords(data: seq<byte>, pos: nat, count: nat, acc: seq<u16>, i: nat)
    requires pos <= |data| && i < |DpisRead(data, pos, count, acc)| - |acc|
    ensures pos + 2 * i + 2 <= |data|
    ensures DpisRead(data, pos, count, acc)[|acc| + i] == ReadLE16(data[pos + 2 * i..pos + 2 * i + 2])
    decreases count
  {
    var w := Read(data, pos, 2);
    var acc' := acc + [ReadLE16(w.value)];
    var rest := DpisRead(data, w.pos, count - 1, acc');
    if i == 0 {
      assert rest[|acc|] == rest[..|acc'|][|acc|];
    } else {
      DpisReadWords(data, w.pos, count - 1, acc', i - 1);
      assert |acc'| + (i - 1) == |acc| + i;
    }
  }

  /** The attributes after `load_profile_bin`, whichever way it ends, starting
      from the attributes `f`. Each is stored as soon as it is read, so a load
      stopped by a short read keeps what it stored before: nothing when the
      first three bytes are missing, the three settings and the DPIs read so
      far when a DPI is cut short, and everything but the checksum when the
      checksum is cut short. */
  function Loaded(c: Caps, f: ProfileFields, data: seq<byte>): (r: ProfileFields)
    ensures ParseProfile(c, data).Ok? ==> r == ParseProfile(c, data).value
    ensures ParseProfile(c, data).Err? ==> r.tail.checksum == f.tail.checksum
    ensures |data| < 3 ==> r == f
    ensures |data| >= 3 ==> r.head.reportRate == data[0] && r.head.dpiDefault == data[1]
                            && r.head.dpiShift == data[2]
    ensures |data| >= 3 && ParseHead(data).Err? ==>
              r == f.(head := f.head.(reportRate := data[0], dpiDefault := data[1], dpiShift := data[2],
                                      dpiList := DpisRead(data, 3, 5, [])))
    ensures ParseHead(data).Ok? ==> r.head == ParseHead(data).value.value
                                    && r.keys == ParseButtons(c, data, ParseHead(data).value.pos).value
  {
    if |data| < 3 then f
    else match ParseHead(data)
      case Err(_) =>
        f.(head := f.head.(reportRate := data[0], dpiDefault := data[1], dpiShift := data[2],
                           dpiList := DpisRead(data, 3, 5, [])))
      case Ok(h) =>
        var keys := ParseButtons(c, data, h.pos);
        ProfileFields(h.value, keys.value, TailLoaded(c, f.tail, data, keys.pos))
  }

  /** The attributes after the reads that follow offset 160, starting from `t`:
      the name, the lighting zones and the rest are stored whatever the length,
      and the checksum only when its two bytes are there. */
  function TailLoaded(c: Caps, t: TailFields, data: seq<byte>, pos: nat): (r: TailFields)
    requires pos <= |data|
    ensures ParseTail(c, data, pos).Ok? ==> r == ParseTail(c, data, pos).value
    ensures ParseTail(c, data, pos).Err? ==> r.checksum == t.checksum
  {
    var name := Read(data, pos, 48);
    var rgb := WordsFrom(data, name.pos, 4, 11, []);
    var chunk2 := Read(data, rgb.pos, c.pageSize - 2 - rgb.pos);
    var sum := Read(data, chunk2.pos, 2);
    var checksum := if |sum.value| == 2 then ReadBE16(sum.value) else t.checksum;
    TailFields(name.value, rgb.value, chunk2.value, checksum)
  }

  function LE16s(ns: seq<u16>): (r: seq<seq<byte>>)
    ensures |r| == |ns| && forall i :: 0 <= i < |ns| ==> r[i] == LE16(ns[i])
  {
    if ns == [] then [] else [LE16(ns[0])] + LE16s(ns[1..])
  }

  function SerializeHead(h: HeadFields): seq<byte>
  {
    [h.reportRate, h.dpiDefault, h.dpiShift] + Concat(LE16s(h.dpiList)) + h.color + h.chunk1
  }

  function SerializeButtons(k: ButtonFields): seq<byte>
  {
    Concat(k.buttons) + k.buttonsPadding + Concat(k.buttonsGshift) + k.buttonsGshiftPadding
  }

  function SerializeTail(t: TailFields): seq<byte>
  {
    t.profileName + Concat(t.rgb) + t.chunk2 + BE16(t.checksum)
  }

  /** The page the fields were read from: the fields concatenated in the order
      they are read. */
  function Serialize(f: ProfileFields): seq<byte>
  {
    (SerializeHead(f.head)) + (SerializeButtons(f.keys)) + (SerializeTail(f.tail))
  }

  /** The capabilities under which every field lands at a fixed offset: at most 16
      buttons in each bank, and room for the 254 bytes before `chunk2`. */
  predicate Fits(c: Caps)
  {
    c.numButtons <= 16 && c.numGButtons <= 16 && c.pageSize >= 254
  }

  predicate AllSized(ws: seq<seq<byte>>, n: nat, width: nat)
  {
    |ws| == n && forall i :: 0 <= i < |ws| ==> |ws[i]| == width
  }

  /** The sizes of the fields of a full page. */
  predicate Shaped(c: Caps, f: ProfileFields)
  {
    && |f.head.dpiList| == 5 && |f.head.color| == 3 && |f.head.chunk1| == 16
    && AllSized(f.keys.buttons, c.numButtons, 4) && |f.keys.buttonsPadding| == 64 - 4 * c.numButtons
    && AllSized(f.keys.buttonsGshift, c.numGButtons, 4)
    && |f.keys.buttonsGshiftPadding| == 64 - 4 * c.numGButtons
    && |f.tail.profileName| == 48 && AllSized(f.tail.rgb, 4, 11) && |f.tail.chunk2| == c.pageSize - 254
  }

  // ---------------------------------------------------------------------------
  // Reading a full page

  /** With enough bytes left, the reads take `count` chunks of exactly `width`
      bytes, which together are the next `count * width` bytes. */
  lemma {:induction false} WordsFull(data: seq<byte>, pos: nat, count: nat, width: nat, acc: seq<seq<byte>>)
    requires pos + count * width <= |data|
    ensures var r := WordsFrom(data, pos, count, width, acc);
      && r.pos == pos + count * width
      && |r.value| == |acc| + count && r.value[..|acc|] == acc
      && (forall i :: |acc| <= i < |r.value| ==> |r.value[i]| == width)
      && Concat(r.value) == Concat(acc) + data[pos..pos + count * width]
    decreases count
  {
    if count == 0 {
      assert acc[..|acc|] == acc;
    } else {
      var n := count * width;
      MulStep(count, width);
      var w := Read(data, pos, width);
      assert w.pos == pos + width && w.value == data[pos..pos + width];
      WordsFull(data, w.pos, count - 1, width, acc + [w.value]);
      var r := WordsFrom(data, pos, count, width, acc);
      assert r == WordsFrom(data, w.pos, count - 1, width, acc + [w.value]);
      assert r.value[..|acc| + 1] == acc + [w.value];
      assert r.value[..|acc|] == (acc + [w.value])[..|acc|];
      ConcatAppend(acc, [w.value]);
      assert Concat([w.value]) == w.value by {
        assert [w.value][1..] == [];
      }
      assert data[pos..pos + width] + data[pos + width..pos + n] == data[pos..pos + n];
    }
  }

  lemma MulStep(count: nat, width: nat)
    requires count > 0
    ensures (count - 1) * width + width == count * width
  {
  }

  lemma LE16sAppend(ns: seq<u16>, n: u16)
    ensures LE16s(ns + [n]) == LE16s(ns) + [LE16(n)]
  {
  }

  /** With enough bytes left, the five DPI reads succeed and their values, written
      back as little-endian words, are the next ten bytes. */
  lemma {:induction false} DpisFull(data: seq<byte>, pos: nat, count: nat, acc: seq<u16>)
    requires pos + 2 * count <= |data|
    ensures var r := DpisFrom(data, pos, count, acc);
      && r.Ok? && r.value.pos == pos + 2 * count && |r.value.value| == |acc| + count
      && Concat(LE16s(r.value.value)) == Concat(LE16s(acc)) + data[pos..pos + 2 * count]
    decreases count
  {
    if count > 0 {
      var w := Read(data, pos, 2);
      assert w.value == data[pos..pos + 2];
      DpisFull(data, w.pos, count - 1, acc + [ReadLE16(w.value)]);
      LE16sAppend(acc, ReadLE16(w.value));
      ConcatAppend(LE16s(acc), [LE16(ReadLE16(w.value))]);
      assert Concat([w.value]) == w.value by {
        assert [w.value][1..] == [];
      }
      assert data[pos..pos + 2] + data[pos + 2..pos + 2 * count] == data[pos..pos + 2 * count];
    }
  }

  lemma Join(data: seq<byte>, a: nat, b: nat, c: nat)
    requires a <= b <= c <= |data|
    ensures data[a..b] + data[b..c] == data[a..c]
  {
  }

  /** The first 32 bytes of a page read as the settings region. */
  lemma HeadFull(data: seq<byte>)
    requires 32 <= |data|
    ensures ParseHead(data).Ok? && ParseHead(data).value.pos == 32
    ensures var h := ParseHead(data).value.value;
      |h.dpiList| == 5 && |h.color| == 3 && |h.chunk1| == 16 && SerializeHead(h) == data[0..32]
  {
    DpisFull(data, 3, 5, []);
    assert LE16s([]) == [];
    var h := ParseHead(data).value.value;
    assert [h.reportRate, h.dpiDefault, h.dpiShift] == data[0..3];
    Join(data, 0, 3, 13);
    Join(data, 0, 13, 16);
    Join(data, 0, 16, 32);
  }

  /** A bank of `n` four-byte mappings at `pos` and its padding up to `end`. */
  lemma BankFull(data: seq<byte>, pos: nat, n: nat, end: nat)
    requires pos + 4 * n <= end <= |data|
    ensures var w := WordsFrom(data, pos, n, 4, []);
      && w.pos == pos + 4 * n && AllSized(w.value, n, 4)
      && Concat(w.value) + Read(data, w.pos, end - w.pos).value == data[pos..end]
  {
    WordsFull(data, pos, n, 4, []);
    Join(data, pos, pos + 4 * n, end);
  }

  /** Bytes 32 to 160 read as the two button banks. */
  lemma ButtonsFull(c: Caps, data: seq<byte>)
    requires Fits(c) && 160 <= |data|
    ensures ParseButtons(c, data, 32).pos == 160
    ensures var k := ParseButtons(c, data, 32).value;
      && AllSized(k.buttons, c.numButtons, 4) && |k.buttonsPadding| == 64 - 4 * c.numButtons
      && AllSized(k.buttonsGshift, c.numGButtons, 4) && |k.buttonsGshiftPadding| == 64 - 4 * c.numGButtons
      && SerializeButtons(k) == data[32..160]
  {
    BankFull(data, 32, c.numButtons, 96);
    BankFull(data, 96, c.numGButtons, 160);
    Join(data, 32, 96, 160);
  }

  /** Bytes 160 to `page_size` read as the name, the lighting zones, the rest and
      the checksum. */
  lemma TailFull(c: Caps, data: seq<byte>)
    requires Fits(c) && c.pageSize <= |data|
    ensures ParseTail(c, data, 160).Ok?
    ensures var t := ParseTail(c, data, 160).value;
      && |t.profileName| == 48 && AllSized(t.rgb, 4, 11) && |t.chunk2| == c.pageSize - 254
      && SerializeTail(t) == data[160..c.pageSize]
  {
    var ps := c.pageSize;
    WordsFull(data, 208, 4, 11, []);
    Join(data, 160, 208, 252);
    Join(data, 160, 252, ps - 2);
    Join(data, 160, ps - 2, ps);
  }

  /** A page of at least `page_size` bytes loads, every field has its size, and
      writing the fields back in order gives the page. */
  lemma SerializeParsed(c: Caps, data: seq<byte>)
    requires Fits(c) && c.pageSize <= |data|
    ensures ParseProfile(c, data).Ok?
    ensures Shaped(c, ParseProfile(c, data).value)
    ensures Serialize(ParseProfile(c, data).value) == data[..c.pageSize]
  {
    HeadFull(data);
    ButtonsFull(c, data);
    TailFull(c, data);
    Join(data, 0, 32, 160);
    Join(data, 0, 160, c.pageSize);
  }

  // ---------------------------------------------------------------------------
  // Short pages and the inverse direction

  /** A page shorter than `page_size` does not load: the checksum read comes up
      short. */
  lemma ParseShort(c: Caps, data: seq<byte>)
    requires Fits(c) && |data| < c.pageSize
    ensures ParseProfile(c, data).Err?
  {
    var h := ParseHead(data);
    if h.Ok? {
      var k := ParseButtons(c, data, h.value.pos);
      assert k.pos <= 160;
      var name := Read(data, k.pos, 48);
      var rgb := WordsFrom(data, name.pos, 4, 11, []);
      assert rgb.pos <= 252;
      var chunk2 := Read(data, rgb.pos, c.pageSize - 2 - rgb.pos);
      assert |Read(data, chunk2.pos, 2).value| < 2;
    }
  }

  /** Under the fixed layout, a page loads exactly when it holds `page_size`
      bytes. */
  lemma ParseOkIff(c: Caps, data: seq<byte>)
    requires Fits(c)
    ensures ParseProfile(c, data).Ok? <==> c.pageSize <= |data|
  {
    if c.pageSize <= |data| {
      SerializeParsed(c, data);
    } else {
      ParseShort(c, data);
    }
  }

  lemma {:induction false} ConcatSized(ws: seq<seq<byte>>, n: nat, width: nat)
    requires AllSized(ws, n, width)
    ensures |Concat(ws)| == n * width
    decreases n
  {
    if n > 0 {
      ConcatSized(ws[1..], n - 1, width);
      MulStep(n, width);
    }
  }

  /** Equal concatenations of pieces of equal sizes have equal pieces. */
  lemma {:induction false} ConcatInjective(ps: seq<seq<byte>>, qs: seq<seq<byte>>)
    requires |ps| == |qs| && (forall i :: 0 <= i < |ps| ==> |ps[i]| == |qs[i]|)
    requires Concat(ps) == Concat(qs)
    ensures ps == qs
  {
    if ps != [] {
      SplitEq(ps[0], Concat(ps[1..]), qs[0], Concat(qs[1..]));
      ConcatInjective(ps[1..], qs[1..]);
      assert ps == [ps[0]] + ps[1..] && qs == [qs[0]] + qs[1..];
    }
  }

  lemma SplitEq(a1: seq<byte>, a2: seq<byte>, b1: seq<byte>, b2: seq<byte>)
    requires |a1| == |b1| && a1 + a2 == b1 + b2
    ensures a1 == b1 && a2 == b2
  {
    assert a1 == (a1 + a2)[..|a1|];
    assert b1 == (b1 + b2)[..|b1|];
    assert a2 == (a1 + a2)[|a1|..];
    assert b2 == (b1 + b2)[|b1|..];
  }

  lemma LE16sInjective(xs: seq<u16>, ys: seq<u16>)
    requires |xs| == |ys| && Concat(LE16s(xs)) == Concat(LE16s(ys))
    ensures xs == ys
  {
    ConcatInjective(LE16s(xs), LE16s(ys));
    forall i | 0 <= i < |xs|
      ensures xs[i] == ys[i]
    {
      assert LE16(xs[i]) == LE16(ys[i]);
    }
  }

  lemma HeadInjective(a: HeadFields, b: HeadFields)
    requires |a.dpiList| == 5 && |a.color| == 3 && |a.chunk1| == 16
    requires |b.dpiList| == 5 && |b.color| == 3 && |b.chunk1| == 16
    requires SerializeHead(a) == SerializeHead(b)
    ensures a == b
  {
    ConcatSized(LE16s(a.dpiList), 5, 2);
    ConcatSized(LE16s(b.dpiList), 5, 2);
    var a1 := [a.reportRate, a.dpiDefault, a.dpiShift] + Concat(LE16s(a.dpiList));
    var b1 := [b.reportRate, b.dpiDefault, b.dpiShift] + Concat(LE16s(b.dpiList));
    SplitEq(a1 + a.color, a.chunk1, b1 + b.color, b.chunk1);
    SplitEq(a1, a.color, b1, b.color);
    SplitEq([a.reportRate, a.dpiDefault, a.dpiShift], Concat(LE16s(a.dpiList)),
            [b.reportRate, b.dpiDefault, b.dpiShift], Concat(LE16s(b.dpiList)));
    LE16sInjective(a.dpiList, b.dpiList);
  }

  lemma ButtonsInjective(c: Caps, a: ButtonFields, b: ButtonFields)
    requires Fits(c)
    requires AllSized(a.buttons, c.numButtons, 4) && |a.buttonsPadding| == 64 - 4 * c.numButtons
    requires AllSized(a.buttonsGshift, c.numGButtons, 4) && |a.buttonsGshiftPadding| == 64 - 4 * c.numGButtons
    requires AllSized(b.buttons, c.numButtons, 4) && |b.buttonsPadding| == 64 - 4 * c.numButtons
    requires AllSized(b.buttonsGshift, c.numGButtons, 4) && |b.buttonsGshiftPadding| == 64 - 4 * c.numGButtons
    requires SerializeButtons(a) == SerializeButtons(b)
    ensures a == b
  {
    ConcatSized(a.buttons, c.numButtons, 4);
    ConcatSized(b.buttons, c.numButtons, 4);
    ConcatSized(a.buttonsGshift, c.numGButtons, 4);
    ConcatSized(b.buttonsGshift, c.numGButtons, 4);
    var a1 := Concat(a.buttons) + a.buttonsPadding;
    var b1 := Concat(b.buttons) + b.buttonsPadding;
    SplitEq(a1 + Concat(a.buttonsGshift), a.buttonsGshiftPadding, b1 + Concat(b.buttonsGshift), b.buttonsGshiftPadding);
    SplitEq(a1, Concat(a.buttonsGshift), b1, Concat(b.buttonsGshift));
    SplitEq(Concat(a.buttons), a.buttonsPadding, Concat(b.buttons), b.buttonsPadding);
    ConcatInjective(a.buttons, b.buttons);
    ConcatInjective(a.buttonsGshift, b.buttonsGshift);
  }

  lemma TailInjective(c: Caps, a: TailFields, b: TailFields)
    requires |a.profileName| == 48 && AllSized(a.rgb, 4, 11) && |a.chunk2| == c.pageSize - 254
    requires |b.profileName| == 48 && AllSized(b.rgb, 4, 11) && |b.chunk2| == c.pageSize - 254
    requires SerializeTail(a) == SerializeTail(b)
    ensures a == b
  {
    ConcatSized(a.rgb, 4, 11);
    ConcatSized(b.rgb, 4, 11);
    var a1 := a.profileName + Concat(a.rgb);
    var b1 := b.profileName + Concat(b.rgb);
    SplitEq(a1 + a.chunk2, BE16(a.checksum), b1 + b.chunk2, BE16(b.checksum));
    SplitEq(a1, a.chunk2, b1, b.chunk2);
    SplitEq(a.profileName, Concat(a.rgb), b.profileName, Concat(b.rgb));
    ConcatInjective(a.rgb, b.rgb);
    BE16RoundTrip(a.checksum);
    BE16RoundTrip(b.checksum);
  }

  /** The sizes of the three regions of a full page. */
  lemma SerializedSizes(c: Caps, f: ProfileFields)
    requires Fits(c) && Shaped(c, f)
    ensures |SerializeHead(f.head)| == 32 && |SerializeButtons(f.keys)| == 128
    ensures |SerializeTail(f.tail)| == c.pageSize - 160
    ensures |Serialize(f)| == c.pageSize
  {
    ConcatSized(LE16s(f.head.dpiList), 5, 2);
    ConcatSized(f.keys.buttons, c.numButtons, 4);
    ConcatSized(f.keys.buttonsGshift, c.numGButtons, 4);
    ConcatSized(f.tail.rgb, 4, 11);
  }

  /** Loading a page written from fields of the right sizes gives back those
      fields, whatever follows the page. */
  lemma ParseSerialized(c: Caps, f: ProfileFields, rest: seq<byte>)
    requires Fits(c) && Shaped(c, f)
    ensures |Serialize(f)| == c.pageSize
    ensures ParseProfile(c, Serialize(f) + rest) == Ok(f)
  {
    var data := Serialize(f) + rest;
    SerializedSizes(c, f);
    SerializeParsed(c, data);
    var g := ParseProfile(c, data).value;
    assert data[..c.pageSize] == Serialize(f);
    SerializedSizes(c, g);
    SplitEq(SerializeHead(f.head) + SerializeButtons(f.keys), SerializeTail(f.tail),
            SerializeHead(g.head) + SerializeButtons(g.keys), SerializeTail(g.tail));
    SplitEq(SerializeHead(f.head), SerializeButtons(f.keys), SerializeHead(g.head), SerializeButtons(g.keys));
    HeadInjective(f.head, g.head);
    ButtonsInjective(c, f.keys, g.keys);
    TailInjective(c, f.tail, g.tail);
  }
}
