/** The onboard macro bytecode: opcode lengths, the decoder that follows
    page-chain opcodes through macro pages, the renderer to text tokens and the
    parser from text tokens. */
module Macro {
  import opened Wrappers
  import opened Bytes
  import opened Constants

  // ---------------------------------------------------------------------------
  // Opcode length

  /** `Macro.get_op_length`: `(op & 0xE0) >> 4` selects the operand size. */
  function OpLength(op: byte): (n: nat)
    ensures n in {1, 2, 3, 5}
  {
    var b := (op - op % 0x20) / 0x10;
    if b == 0x0 then 1
    else if b == 0x2 then 2
    else if b == 0x4 then 3
    else if b == 0x6 then 5
    else 1
  }

  /** The length depends only on bits 7-5 of the opcode. */
  lemma OpLengthByRange(op: byte)
    ensures op < 0x20 ==> OpLength(op) == 1
    ensures 0x20 <= op < 0x40 ==> OpLength(op) == 2
    ensures 0x40 <= op < 0x60 ==> OpLength(op) == 3
    ensures 0x60 <= op < 0x80 ==> OpLength(op) == 5
    ensures 0x80 <= op ==> OpLength(op) == 1
  {
  }

  // ---------------------------------------------------------------------------
  // Decoding a macro from the device's macro pages

  /** The part of the onboard-profile geometry the decoder checks references against. */
  datatype Geometry = Geometry(numProfiles: int, numPages: int, pageSize: int)

  /** A page/offset reference is accepted when the page is one of the macro pages
      `num_profiles+1 .. num_pages` and the offset leaves room before the checksum. */
  predicate InMacroPages(g: Geometry, page: int, pos: int)
  {
    g.numProfiles + 1 <= page <= g.numPages && pos < g.pageSize - 10
  }

  /** An element the decoder emits: one whole instruction that is neither a chain
      nor the end marker. */
  predicate WellFormedOp(mc: MacroControl, e: seq<byte>)
  {
    |e| >= 1 && IsOp(mc, e[0]) && e[0] != mc.nextPage && e[0] != mc.macroEnd
    && |e| == OpLength(e[0])
  }

  function Remaining(data: seq<byte>, pos: nat): nat
  {
    if pos <= |data| then |data| - pos else 0
  }

  /** What the decoder finds at cursor `pos` of its buffer. */
  datatype Instr =
    | Truncated                      // the cursor or a chain operand is past the end
    | NotAnOp                        // a byte that is not a MacroControl code
    | Chain(page: u16, off: u16)     // `next_page` with its big-endian page and offset
    | End                            // `macro_end`
    | Emit(e: seq<byte>, step: nat)  // any other opcode and the operand bytes after it

  function Fetch(mc: MacroControl, data: seq<byte>, pos: nat): (r: Instr)
    ensures r.Emit? ==> pos < |data| && r.step == OpLength(data[pos]) && r.e == Slice(data, pos, pos + r.step)
    ensures r.Emit? ==> IsOp(mc, data[pos]) && data[pos] != mc.nextPage && data[pos] != mc.macroEnd
  {
    if pos >= |data| then Truncated
    else
      var op := data[pos];
      if !IsOp(mc, op) then NotAnOp
      else if op == mc.nextPage then
        if pos + 5 > |data| then Truncated
        else Chain(ReadBE16(data[pos + 1..pos + 3]), ReadBE16(data[pos + 3..pos + 5]))
      else if op == mc.macroEnd then End
      else Emit(Slice(data, pos, pos + OpLength(op)), OpLength(op))
  }

  /** The instructions collected in `acc`, followed by those from cursor `pos` of
      `data` up to the end marker. `read(p)` is the content of macro page `p` as the
      device returns it; `fuel` bounds the number of chain opcodes followed, which
      the device format does not bound. After a chain the new buffer is the target
      page from the chain offset on, and the cursor stays at that same offset. */
  function DecodeFrom(mc: MacroControl, g: Geometry, read: int -> seq<byte>,
                      acc: seq<seq<byte>>, data: seq<byte>, pos: nat, fuel: nat): (r: Result<seq<seq<byte>>>)
    decreases fuel, Remaining(data, pos)
  {
    match Fetch(mc, data, pos)
    case Truncated => Err(TruncatedMacro)
    case NotAnOp => Err(WrongMacroOp)
    case Chain(page, off) =>
      if !InMacroPages(g, page, off) then Err(WrongOffset)
      else if fuel == 0 then Err(OutOfFuel)
      else DecodeFrom(mc, g, read, acc, Drop(read(page), off), off, fuel - 1)
    case End => Ok(acc)
    case Emit(e, step) => DecodeFrom(mc, g, read, acc + [e], data, pos + step, fuel)
  }

  /** `Macro.read_macro_bytes`: the 32-bit reference is page (high half) and offset
      (low half). */
  function Decode(mc: MacroControl, g: Geometry, read: int -> seq<byte>,
                  offset: u32, fuel: nat): Result<seq<seq<byte>>>
  {
    var page, pos := offset / 0x1_0000, offset % 0x1_0000;
    if !InMacroPages(g, page, pos) then Err(WrongOffset)
    else DecodeFrom(mc, g, read, [], Drop(read(page), pos), 0, fuel)
  }

  /** The decoder's state between two instructions: the elements read so far, the
      page buffer, the cursor in it and the chain hops left. */
  datatype Cursor = Cursor(ret: seq<seq<byte>>, data: seq<byte>, pos: nat, hops: nat)

  function Resume(mc: MacroControl, g: Geometry, read: int -> seq<byte>, c: Cursor): Result<seq<seq<byte>>>
  {
    DecodeFrom(mc, g, read, c.ret, c.data, c.pos, c.hops)
  }

  /** One pass of `read_macro_bytes`'s loop: either the decoder's answer, or the
      next state, which decodes to the same answer and is nearer the end. */
  method ReadStep(mc: MacroControl, g: Geometry, read: int -> seq<byte>, c: Cursor)
    returns (done: Option<Result<seq<seq<byte>>>>, next: Cursor)
    ensures done.Some? ==> done.value == Resume(mc, g, read, c)
    ensures done.None? ==> Resume(mc, g, read, next) == Resume(mc, g, read, c)
    ensures done.None? ==> next.hops < c.hops
                           || (next.hops == c.hops && Remaining(next.data, next.pos) < Remaining(c.data, c.pos))
  {
    next := c;
    var data, pos := c.data, c.pos;
    if pos >= |data| {
      return Some(Err(TruncatedMacro)), next;
    }
    var op := data[pos];
    if !IsOp(mc, op) {
      return Some(Err(WrongMacroOp)), next;
    }
    if op == mc.nextPage {
      if pos + 5 > |data| {
        return Some(Err(TruncatedMacro)), next;
      }
      var page, off := ReadBE16(data[pos + 1..pos + 3]), ReadBE16(data[pos + 3..pos + 5]);
      assert Fetch(mc, data, pos) == Chain(page, off);
      if !InMacroPages(g, page, off) {
        return Some(Err(WrongOffset)), next;
      }
      if c.hops == 0 {
        return Some(Err(OutOfFuel)), next;
      }
      next := Cursor(c.ret, Drop(read(page), off), off, c.hops - 1);
      ChainStep(mc, g, read, c.ret, data, pos, c.hops, page, off);
      return None, next;
    } else if op == mc.macroEnd {
      return Some(Ok(c.ret)), next;
    } else {
      var step := OpLength(op);
      var e := Slice(data, pos, pos + step);
      assert Fetch(mc, data, pos) == Emit(e, step);
      EmitStep(mc, g, read, c.ret, data, pos, c.hops, e, step);
      next := Cursor(c.ret + [e], data, pos + step, c.hops);
      return None, next;
    }
  }

  method ReadMacroBytes(mc: MacroControl, g: Geometry, read: int -> seq<byte>,
                        offset: u32, fuel: nat) returns (r: Result<seq<seq<byte>>>)
    ensures r == Decode(mc, g, read, offset, fuel)
    ensures !InMacroPages(g, offset / 0x1_0000, offset % 0x1_0000) ==> r == Err(WrongOffset)
    ensures r.Ok? ==> AllWellFormed(mc, r.value)
  {
    var page, pos := offset / 0x1_0000, offset % 0x1_0000;
    if !InMacroPages(g, page, pos) {
      return Err(WrongOffset);
    }
    DecodedAreWellFormed(mc, g, read, [], Drop(read(page), pos), 0, fuel);
    var c := Cursor([], Drop(read(page), pos), 0, fuel);
    ghost var decoded := Resume(mc, g, read, c);
    while true
      invariant decoded == Resume(mc, g, read, c)
      decreases c.hops, Remaining(c.data, c.pos)
    {
      var done;
      done, c := ReadStep(mc, g, read, c);
      if done.Some? {
        return done.value;
      }
    }
  }

  /** All elements are whole instructions. */
  predicate AllWellFormed(mc: MacroControl, ops: seq<seq<byte>>)
  {
    forall i :: 0 <= i < |ops| ==> WellFormedOp(mc, ops[i])
  }

  /** Every decoded element is one whole instruction: a MacroControl opcode other
      than chain and end, followed by exactly its operands. */
  lemma {:induction false} DecodedAreWellFormed(mc: MacroControl, g: Geometry, read: int -> seq<byte>,
                                                acc: seq<seq<byte>>, data: seq<byte>, pos: nat, fuel: nat)
    requires AllWellFormed(mc, acc)
    ensures var r := DecodeFrom(mc, g, read, acc, data, pos, fuel);
            r.Ok? ==> AllWellFormed(mc, r.value)
    decreases fuel, Remaining(data, pos), 1
  {
    var ins := Fetch(mc, data, pos);
    if ins.Chain? {
      ChainWellFormed(mc, g, read, acc, data, pos, fuel, ins.page, ins.off);
    } else if ins.Emit? {
      EmitWellFormed(mc, g, read, acc, data, pos, fuel, ins.e, ins.step);
    }
  }

  lemma {:induction false} ChainWellFormed(mc: MacroControl, g: Geometry, read: int -> seq<byte>,
                                           acc: seq<seq<byte>>, data: seq<byte>, pos: nat, fuel: nat,
                                           page: u16, off: u16)
    requires AllWellFormed(mc, acc)
    requires Fetch(mc, data, pos) == Chain(page, off)
    ensures var r := DecodeFrom(mc, g, read, acc, data, pos, fuel);
            r.Ok? ==> AllWellFormed(mc, r.value)
    decreases fuel, Remaining(data, pos), 0
  {
    if InMacroPages(g, page, off) && fuel > 0 {
      DecodedAreWellFormed(mc, g, read, acc, Drop(read(page), off), off, fuel - 1);
    }
  }

  lemma {:induction false} EmitWellFormed(mc: MacroControl, g: Geometry, read: int -> seq<byte>,
                                          acc: seq<seq<byte>>, data: seq<byte>, pos: nat, fuel: nat,
                                          e: seq<byte>, step: nat)
    requires AllWellFormed(mc, acc)
    requires Fetch(mc, data, pos) == Emit(e, step)
    ensures var r := DecodeFrom(mc, g, read, acc, data, pos, fuel);
            r.Ok? ==> AllWellFormed(mc, r.value)
    decreases fuel, Remaining(data, pos), 0
  {
    var r := DecodeFrom(mc, g, read, acc + [e], data, pos + step, fuel);
    if r.Ok? {
      DecodeOkInBounds(mc, g, read, acc + [e], data, pos + step, fuel);
      assert WellFormedOp(mc, e);
      assert AllWellFormed(mc, acc + [e]);
      DecodedAreWellFormed(mc, g, read, acc + [e], data, pos + step, fuel);
    }
  }

  /** A decode that succeeds starts inside its buffer. */
  lemma DecodeOkInBounds(mc: MacroControl, g: Geometry, read: int -> seq<byte>,
                         acc: seq<seq<byte>>, data: seq<byte>, pos: nat, fuel: nat)
    requires DecodeFrom(mc, g, read, acc, data, pos, fuel).Ok?
    ensures pos < |data|
  {
  }

  lemma DropSlice(s: seq<byte>, a: nat, i: nat, j: nat)
    requires a <= |s|
    ensures Slice(Drop(s, a), i, j) == Slice(s, a + i, a + j)
  {
    var x, y := Slice(Drop(s, a), i, j), Slice(s, a + i, a + j);
    assert |x| == |y|;
    forall k | 0 <= k < |x|
      ensures x[k] == y[k]
    {
    }
  }

  lemma FetchShift(mc: MacroControl, s: seq<byte>, a: nat, pos: nat)
    requires a <= |s|
    ensures Fetch(mc, Drop(s, a), pos) == Fetch(mc, s, a + pos)
  {
    var d := Drop(s, a);
    if pos < |d| {
      assert d[pos] == s[a + pos];
      if pos + 5 <= |d| {
        assert d[pos + 1..pos + 3] == s[a + pos + 1..a + pos + 3];
        assert d[pos + 3..pos + 5] == s[a + pos + 3..a + pos + 5];
      }
      DropSlice(s, a, pos, pos + OpLength(d[pos]));
    }
  }


  /** Decoding a buffer that starts `a` bytes into `s` is decoding `s` with the
      cursor moved on by `a`. */
  lemma {:induction false} DecodeShift(mc: MacroControl, g: Geometry, read: int -> seq<byte>,
                                       acc: seq<seq<byte>>, s: seq<byte>, a: nat, pos: nat, fuel: nat)
    requires a <= |s|
    ensures DecodeFrom(mc, g, read, acc, Drop(s, a), pos, fuel) == DecodeFrom(mc, g, read, acc, s, a + pos, fuel)
    decreases Remaining(s, a + pos)
  {
    FetchShift(mc, s, a, pos);
    var x := Fetch(mc, s, a + pos);
    if x.Emit? {
      DecodeShift(mc, g, read, acc + [x.e], s, a, pos + x.step, fuel);
      assert a + (pos + x.step) == a + pos + x.step;
    }
    SameStep(mc, g, read, acc, Drop(s, a), pos, s, a + pos, fuel);
  }

  /** Two decoders that find the same instruction at their cursors take the same
      step, so they agree when they agree after an emitted instruction. */
  lemma SameStep(mc: MacroControl, g: Geometry, read: int -> seq<byte>, acc: seq<seq<byte>>,
                 d1: seq<byte>, p1: nat, d2: seq<byte>, p2: nat, fuel: nat)
    requires Fetch(mc, d1, p1) == Fetch(mc, d2, p2)
    requires Fetch(mc, d1, p1).Emit? ==>
      DecodeFrom(mc, g, read, acc + [Fetch(mc, d1, p1).e], d1, p1 + Fetch(mc, d1, p1).step, fuel)
      == DecodeFrom(mc, g, read, acc + [Fetch(mc, d1, p1).e], d2, p2 + Fetch(mc, d1, p1).step, fuel)
    ensures DecodeFrom(mc, g, read, acc, d1, p1, fuel) == DecodeFrom(mc, g, read, acc, d2, p2, fuel)
  {
  }

  /** A chain opcode `[next_page, page, offset]` is followed by decoding the target
      page from byte `2 * offset`: the buffer already starts at the offset and the
      cursor is not reset. */
  lemma ChainResume(mc: MacroControl, g: Geometry, read: int -> seq<byte>,
                    acc: seq<seq<byte>>, data: seq<byte>, pos: nat, fuel: nat, page: u16, off: u16)
    requires Fetch(mc, data, pos) == Chain(page, off)
    requires InMacroPages(g, page, off) && off <= |read(page)|
    ensures DecodeFrom(mc, g, read, acc, data, pos, fuel + 1) == DecodeFrom(mc, g, read, acc, read(page), off + off, fuel)
  {
    ChainStep(mc, g, read, acc, data, pos, fuel + 1, page, off);
    DecodeShift(mc, g, read, acc, read(page), off, off, fuel);
  }

  /** With offset 0, what the encoder writes, a chain resumes at byte 0 of the
      target page. */
  lemma ChainToPageStart(mc: MacroControl, g: Geometry, read: int -> seq<byte>,
                         acc: seq<seq<byte>>, data: seq<byte>, pos: nat, fuel: nat, page: u16)
    requires Fetch(mc, data, pos) == Chain(page, 0)
    requires InMacroPages(g, page, 0)
    ensures DecodeFrom(mc, g, read, acc, data, pos, fuel + 1) == DecodeFrom(mc, g, read, acc, read(page), 0, fuel)
  {
    ChainResume(mc, g, read, acc, data, pos, fuel, page, 0);
  }

  /** One chain step of the decoder. */
  lemma ChainStep(mc: MacroControl, g: Geometry, read: int -> seq<byte>,
                  acc: seq<seq<byte>>, data: seq<byte>, pos: nat, fuel: nat, page: u16, off: u16)
    requires Fetch(mc, data, pos) == Chain(page, off) && InMacroPages(g, page, off) && fuel > 0
    ensures DecodeFrom(mc, g, read, acc, data, pos, fuel)
         == DecodeFrom(mc, g, read, acc, Drop(read(page), off), off, fuel - 1)
  {
  }

  /** One emitting step of the decoder. */
  lemma EmitStep(mc: MacroControl, g: Geometry, read: int -> seq<byte>,
                 acc: seq<seq<byte>>, data: seq<byte>, pos: nat, fuel: nat, e: seq<byte>, step: nat)
    requires Fetch(mc, data, pos) == Emit(e, step)
    ensures DecodeFrom(mc, g, read, acc, data, pos, fuel) == DecodeFrom(mc, g, read, acc + [e], data, pos + step, fuel)
  {
  }

  /** What the decoder reads as a chain: the opcode and two big-endian words. */
  lemma ChainFetched(mc: MacroControl, data: seq<byte>, pos: nat, page: u16, off: u16)
    requires pos + 5 <= |data| && IsOp(mc, mc.nextPage)
    requires data[pos] == mc.nextPage
    requires data[pos + 1..pos + 3] == BE16(page) && data[pos + 3..pos + 5] == BE16(off)
    ensures Fetch(mc, data, pos) == Chain(page, off)
  {
    BE16RoundTrip(page);
    BE16RoundTrip(off);
  }


  /** The instructions of one macro, concatenated and closed by the end marker, decode
      back to the same instructions: the stream form is self-delimiting. */
  lemma {:induction false} DecodeConcat(mc: MacroControl, g: Geometry, read: int -> seq<byte>,
                                        acc: seq<seq<byte>>, ops: seq<seq<byte>>, rest: seq<byte>, fuel: nat)
    requires AllWellFormed(mc, ops)
    requires IsOp(mc, mc.macroEnd) && mc.macroEnd != mc.nextPage
    ensures DecodeFrom(mc, g, read, acc, Concat(ops) + [mc.macroEnd] + rest, 0, fuel) == Ok(acc + ops)
    decreases |ops|
  {
    var s := Concat(ops) + [mc.macroEnd] + rest;
    if ops == [] {
      assert s[0] == mc.macroEnd;
      assert Fetch(mc, s, 0) == End;
      assert acc + ops == acc;
    } else {
      var e, tail := ops[0], Concat(ops[1..]) + [mc.macroEnd] + rest;
      assert s == e + tail;
      assert Fetch(mc, s, 0) == Emit(e, |e|) by {
        assert s[0] == e[0];
        assert Slice(s, 0, |e|) == e;
      }
      DecodeConcat(mc, g, read, acc + [e], ops[1..], rest, fuel);
      assert Drop(s, |e|) == tail;
      DecodeShift(mc, g, read, acc + [e], s, |e|, 0, fuel);
      assert (acc + [e]) + ops[1..] == acc + ops;
    }
  }

  // ---------------------------------------------------------------------------
  // Text tokens

  /** The sign prefix of a key step: `+k` presses, `-k` releases, a bare `k` taps. */
  datatype Sign = Press | Release | Tap

  /** One space-separated step of the text form, split into its parts: a key name
      with its sign, or a call `name(a1,a2,...)` with the numbers it contains. */
  datatype Token =
    | KeyTok(sign: Sign, key: string)
    | CallTok(name: string, args: seq<int>)

  function Abs(x: int): nat { if x < 0 then -x else x }

  predicate HasPrefix(s: string, p: string) { |p| <= |s| && s[..|p|] == p }

  /** Strictly increasing. */
  predicate Ascending(s: seq<int>)
  {
    forall i, j :: 0 <= i < j < |s| ==> s[i] < s[j]
  }

  function Pow2(n: nat): (r: nat)
    ensures r >= 1
  {
    if n == 0 then 1 else 2 * Pow2(n - 1)
  }

  /** `v & (1 << i) != 0` */
  predicate HasBit(v: nat, i: nat)
  {
    if i == 0 then v % 2 == 1 else HasBit(v / 2, i - 1)
  }

  /** `v | (1 << i)` */
  function SetBit(v: nat, i: nat): nat
  {
    if i == 0 then (if v % 2 == 1 then v else v + 1)
    else 2 * SetBit(v / 2, i - 1) + v % 2
  }

  /** Setting bit `i` sets that bit and leaves every other bit as it was. */
  lemma {:induction false} SetBitBits(v: nat, i: nat, j: nat)
    ensures HasBit(SetBit(v, i), j) <==> HasBit(v, j) || i == j
  {
    if i > 0 && j > 0 {
      SetBitBits(v / 2, i - 1, j - 1);
    }
  }

  /** Setting a bit below `n` keeps a value below `2^n`. */
  lemma {:induction false} SetBitBound(v: nat, i: nat, n: nat)
    requires v < Pow2(n) && i < n
    ensures SetBit(v, i) < Pow2(n)
  {
    var h, r, p := v / 2, v % 2, Pow2(n - 1);
    assert v == 2 * h + r && 0 <= r < 2;
    assert Pow2(n) == 2 * p;
    assert h < p;
    if i > 0 {
      SetBitBound(h, i - 1, n - 1);
      assert SetBit(v, i) == 2 * SetBit(h, i - 1) + r;
    }
  }

  /** The buttons `1..n` whose bits are set in `v`, ascending: the list the renderer
      writes inside `btn(...)`. */
  function ButtonsUpTo(v: nat, n: nat): seq<int>
  {
    if n == 0 then [] else ButtonsUpTo(v, n - 1) + (if HasBit(v, n - 1) then [n] else [])
  }

  /** The list holds exactly the buttons whose bits are set, in ascending order. */
  lemma {:induction false} ButtonsListed(v: nat, n: nat)
    ensures Ascending(ButtonsUpTo(v, n))
    ensures forall k :: k in ButtonsUpTo(v, n) <==> 1 <= k <= n && HasBit(v, k - 1)
  {
    if n > 0 {
      ButtonsListed(v, n - 1);
      var r := ButtonsUpTo(v, n - 1);
      assert forall i :: 0 <= i < |r| ==> r[i] in r;
    }
  }

  // ---------------------------------------------------------------------------
  // Rendering decoded instructions as text

  /** `Modifier(v).name` if `v in Modifier`, else `KeyCode(v).name`; an unknown code
      is an error. */
  function KeyName(t: Tables, v: int): (r: Result<string>)
    ensures r.Ok? <==> HasValue(t.modifier, v) || HasValue(t.keyCode, v)
    ensures r.Ok? && HasValue(t.modifier, v) ==> Member(r.value, v) in t.modifier
    ensures r.Ok? && !HasValue(t.modifier, v) ==> Member(r.value, v) in t.keyCode
    ensures !r.Ok? ==> r == Err(WrongMacroControl)
  {
    match NameOf(t.modifier, v)
    case Some(n) => Ok(n)
    case None =>
      match NameOf(t.keyCode, v)
      case Some(n) => Ok(n)
      case None => Err(WrongMacroControl)
  }

  /** `MacroControl(op).name` for an opcode the renderer names. */
  function OpName(mc: MacroControl, op: int): (n: string)
    ensures IsOp(mc, op) ==> Member(n, op) in Members(mc)
  {
    match NameOf(Members(mc), op)
    case Some(n) => n
    case None => ""
  }

  /** The token one decoded instruction renders as; `None` for opcodes the text
      form leaves out (chain, end and any other MacroControl member). The operand
      bytes must have exactly the size `struct.unpack` reads. */
  function RenderOp(t: Tables, e: seq<byte>): Result<Option<Token>>
  {
    if |e| == 0 then Err(ShortData)
    else
      var mc, op := t.macro, e[0];
      if op == mc.keyDown || op == mc.keyUp then
        if |e| != 3 then Err(ShortData)
        else
          var key :- KeyName(t, ReadBE16(e[1..]));
          Ok(Some(KeyTok(if op == mc.keyDown then Press else Release, key)))
      else if op == mc.sleep then
        if |e| != 3 then Err(ShortData)
        else Ok(Some(CallTok(OpName(mc, op), [ReadBE16(e[1..])])))
      else if op == mc.wheel || op == mc.wheelh then
        if |e| != 2 then Err(ShortData)
        else Ok(Some(CallTok(OpName(mc, op), [SignedByte(e[1])])))
      else if op == mc.move then
        if |e| != 5 then Err(ShortData)
        else Ok(Some(CallTok(OpName(mc, op), [SignedBE16(e[3..5]), SignedBE16(e[1..3])])))
      else if op == mc.pause || op == mc.repeat || op == mc.loop then
        Ok(Some(CallTok(OpName(mc, op), [])))
      else if op == mc.btnDown || op == mc.btnUp then
        if |e| != 3 then Err(ShortData)
        else Ok(Some(CallTok(if op == mc.btnDown then "+btn" else "-btn", ButtonsUpTo(ReadBE16(e[1..]), 5))))
      else Ok(None)
  }

  /** `a` is `+x` and `b` is `-x` for the same `x`. */
  predicate Pairs(a: Token, b: Token)
  {
    match (a, b)
    case (KeyTok(Press, x), KeyTok(Release, y)) => x == y
    case (CallTok(x, p), CallTok(y, q)) =>
      |x| > 0 && |y| > 0 && x[0] == '+' && y[0] == '-' && x[1..] == y[1..] && p == q
    case _ => false
  }

  /** A token without its leading `+`. */
  function Unsigned(a: Token): Token
  {
    match a
    case KeyTok(_, x) => KeyTok(Tap, x)
    case CallTok(x, p) => CallTok(if |x| > 0 then x[1..] else x, p)
  }

  /** The tap rule: when the last two tokens are `+x -x`, the first loses its sign
      and the second is dropped. */
  function Collapse(ret: seq<Token>): (r: seq<Token>)
  {
    if |ret| > 1 && Pairs(ret[|ret| - 2], ret[|ret| - 1])
    then ret[|ret| - 2 := Unsigned(ret[|ret| - 2])][..|ret| - 1]
    else ret
  }

  /** The tokens in `ret`, followed by those of the remaining instructions. */
  function RenderFrom(t: Tables, ret: seq<Token>, ops: seq<seq<byte>>): Result<seq<Token>>
    decreases |ops|
  {
    if ops == [] then Ok(ret)
    else
      match RenderOp(t, ops[0])
      case Err(e) => Err(e)
      case Ok(tok) => RenderFrom(t, Collapse(if tok.Some? then ret + [tok.value] else ret), ops[1..])
  }

  /** `Macro.macro_bin_to_text`, as the list of tokens it joins with spaces. */
  function Render(t: Tables, ops: seq<seq<byte>>): Result<seq<Token>>
  {
    RenderFrom(t, [], ops)
  }

  /** The buttons of a button-op operand: `val & (1 << i)` for `i` in `0..4`. */
  method ButtonList(v: u16) returns (btns: seq<int>)
    ensures btns == ButtonsUpTo(v, 5)
  {
    btns := [];
    for i := 0 to 5
      invariant btns == ButtonsUpTo(v, i)
    {
      if HasBit(v, i) {
        btns := btns + [i + 1];
      }
    }
  }

  /** The token of one instruction, as the body of the renderer's loop builds it. */
  method RenderElement(t: Tables, e: seq<byte>) returns (r: Result<Option<Token>>)
    ensures r == RenderOp(t, e)
  {
    if |e| == 0 {
      return Err(ShortData);
    }
    var mc, op := t.macro, e[0];
    if op == mc.keyDown || op == mc.keyUp {
      if |e| != 3 {
        return Err(ShortData);
      }
      var key :- KeyName(t, ReadBE16(e[1..]));
      return Ok(Some(KeyTok(if op == mc.keyDown then Press else Release, key)));
    } else if op == mc.sleep {
      if |e| != 3 {
        return Err(ShortData);
      }
      return Ok(Some(CallTok(OpName(mc, op), [ReadBE16(e[1..])])));
    } else if op == mc.wheel || op == mc.wheelh {
      if |e| != 2 {
        return Err(ShortData);
      }
      return Ok(Some(CallTok(OpName(mc, op), [SignedByte(e[1])])));
    } else if op == mc.move {
      if |e| != 5 {
        return Err(ShortData);
      }
      var y, x := SignedBE16(e[1..3]), SignedBE16(e[3..5]);
      return Ok(Some(CallTok(OpName(mc, op), [x, y])));
    } else if op == mc.pause || op == mc.repeat || op == mc.loop {
      return Ok(Some(CallTok(OpName(mc, op), [])));
    } else if op == mc.btnDown || op == mc.btnUp {
      if |e| != 3 {
        return Err(ShortData);
      }
      var btns := ButtonList(ReadBE16(e[1..]));
      return Ok(Some(CallTok(if op == mc.btnDown then "+btn" else "-btn", btns)));
    }
    return Ok(None);
  }

  /** `Macro.macro_bin_to_text` */
  method MacroBinToText(t: Tables, ops: seq<seq<byte>>) returns (r: Result<seq<Token>>)
    ensures r == Render(t, ops)
  {
    var ret: seq<Token> := [];
    for i := 0 to |ops|
      invariant RenderFrom(t, ret, ops[i..]) == Render(t, ops)
    {
      assert ops[i..][0] == ops[i] && ops[i..][1..] == ops[i + 1..];
      var tok := RenderElement(t, ops[i]);
      if tok.Err? {
        return Err(tok.error);
      }
      if tok.value.Some? {
        ret := ret + [tok.value.value];
      }
      if |ret| > 1 && Pairs(ret[|ret| - 2], ret[|ret| - 1]) {
        ret := ret[|ret| - 2 := Unsigned(ret[|ret| - 2])];
        ret := ret[..|ret| - 1];
      }
    }
    assert ops[|ops|..] == [];
    return Ok(ret);
  }

  // ---------------------------------------------------------------------------
  // Parsing text tokens into instructions

  /** `Modifier[k]` if `k in Modifier`, else `KeyCode[k]`; an unknown key is an error. */
  function KeyValue(t: Tables, k: string): (r: Result<int>)
    ensures r.Ok? <==> HasName(t.modifier, k) || HasName(t.keyCode, k)
    ensures r.Ok? && HasName(t.modifier, k) ==> Member(k, r.value) in t.modifier
    ensures r.Ok? && !HasName(t.modifier, k) ==> Member(k, r.value) in t.keyCode
    ensures !r.Ok? ==> r == Err(UnknownKey)
  {
    match ValueOf(t.modifier, k)
    case Some(v) => Ok(v)
    case None =>
      match ValueOf(t.keyCode, k)
      case Some(v) => Ok(v)
      case None => Err(UnknownKey)
  }

  /** `list.remove(k)`: drops the first occurrence. */
  function Remove(keys: seq<string>, k: string): (r: seq<string>)
    requires k in keys
    ensures multiset(r) == multiset(keys) - multiset{k}
  {
    if keys[0] == k then
      assert keys == [k] + keys[1..];
      keys[1..]
    else
      assert keys == [keys[0]] + keys[1..];
      [keys[0]] + Remove(keys[1..], k)
  }

  /** The mask of a button list: bit `b-1` for each button `b` up to 5, larger
      numbers ignored; button 0 makes `1 << -1`, which Python refuses. The numbers
      are those `\d+` finds, so without their sign. */
  function MaskFrom(nums: seq<int>, mask: nat): (r: Result<nat>)
  {
    if nums == [] then Ok(mask)
    else
      var b := Abs(nums[0]);
      if b > 5 then MaskFrom(nums[1..], mask)
      else if b == 0 then Err(BadArgument)
      else MaskFrom(nums[1..], SetBit(mask, b - 1))
  }

  /** The loop that ORs the buttons into `val`. */
  method ButtonMask(nums: seq<int>) returns (r: Result<nat>)
    ensures r == MaskFrom(nums, 0)
  {
    var mask: nat := 0;
    for i := 0 to |nums|
      invariant MaskFrom(nums[i..], mask) == MaskFrom(nums, 0)
    {
      assert nums[i..][0] == nums[i] && nums[i..][1..] == nums[i + 1..];
      var b := Abs(nums[i]);
      if b <= 5 {
        if b == 0 {
          return Err(BadArgument);
        }
        mask := SetBit(mask, b - 1);
      }
    }
    assert nums[|nums|..] == [];
    return Ok(mask);
  }

  /** The bytes of one step and the list of keys held down after it. */
  datatype Step = Step(bytes: seq<byte>, keys: seq<string>)

  /** The key-list bookkeeping of one token: `+k` appends a key not yet held, `-k`
      removes a held key, anything else leaves the list alone. */
  predicate Moves(keys: seq<string>, tok: Token, after: seq<string>)
  {
    match tok
    case KeyTok(Press, x) => x !in keys && after == keys + [x]
    case KeyTok(Release, x) => x in keys && after == Remove(keys, x)
    case _ => after == keys
  }

  /** One step of `Macro.macro_bin_from_text`. */
  function ParseOp(t: Tables, keys: seq<string>, tok: Token): (r: Result<Step>)
    ensures r.Ok? ==> Moves(keys, tok, r.value.keys)
  {
    var mc := t.macro;
    match tok
    case KeyTok(sign, k) =>
      var v :- KeyValue(t, k);
      if sign == Press && k in keys then Err(KeyAlreadyDown)
      else if sign == Release && k !in keys then Err(KeyNotDown)
      else if !(0 <= v < 0x1_0000) then Err(BadArgument)
      else if sign == Press then Ok(Step([mc.keyDown] + BE16(v), keys + [k]))
      else if sign == Release then Ok(Step([mc.keyUp] + BE16(v), Remove(keys, k)))
      else Ok(Step([mc.keyDown] + BE16(v) + [mc.keyUp] + BE16(v), keys))
    case CallTok(name, args) =>
      if name == "wheel" || name == "wheelh" then
        if args == [] || !(-0x80 <= args[0] < 0x80) then Err(BadArgument)
        else Ok(Step([if name == "wheel" then mc.wheel else mc.wheelh, FromSignedByte(args[0])], keys))
      else if name == "move" then
        if |args| < 2 || !(-0x8000 <= args[0] < 0x8000) || !(-0x8000 <= args[1] < 0x8000) then Err(BadArgument)
        else Ok(Step([mc.move] + FromSignedBE16(args[1]) + FromSignedBE16(args[0]), keys))
      else if name == "sleep" then
        if args == [] || Abs(args[0]) >= 0x1_0000 then Err(BadArgument)
        else Ok(Step([mc.sleep] + BE16(Abs(args[0])), keys))
      else if args == [] then
        match ValueOf(Members(mc), name)
        case None => Err(UnknownMacroOp)
        case Some(code) => if IsByte(code) then Ok(Step([code], keys)) else Err(ByteRange)
      else if HasPrefix(name, "+btn") || HasPrefix(name, "-btn") || HasPrefix(name, "btn") then
        var mask :- MaskFrom(args, 0);
        if !(mask < 0x1_0000) then Err(BadArgument)
        else if HasPrefix(name, "+btn") then Ok(Step([mc.btnDown] + BE16(mask), keys))
        else if HasPrefix(name, "-btn") then Ok(Step([mc.btnUp] + BE16(mask), keys))
        else Ok(Step([mc.btnDown] + BE16(mask) + [mc.btnUp] + BE16(mask), keys))
      else Err(UnknownMacroOp)
  }

  /** The instructions in `acc`, followed by those of the remaining tokens; every
      key pressed must be released by the end. */
  function ParseFrom(t: Tables, keys: seq<string>, acc: seq<seq<byte>>, toks: seq<Token>): Result<seq<seq<byte>>>
    decreases |toks|
  {
    if toks == [] then
      if keys != [] then Err(KeysNotReleased) else Ok(acc)
    else
      match ParseOp(t, keys, toks[0])
      case Err(e) => Err(e)
      case Ok(s) => ParseFrom(t, s.keys, acc + [s.bytes], toks[1..])
  }

  /** `Macro.macro_bin_from_text` on the tokens of the text. */
  function Parse(t: Tables, toks: seq<Token>): Result<seq<seq<byte>>>
  {
    ParseFrom(t, [], [], toks)
  }

  /** The body of the parser's loop: the bytes of one token and the new key list. */
  method EncodeOp(t: Tables, keys: seq<string>, tok: Token) returns (r: Result<Step>)
    ensures r == ParseOp(t, keys, tok)
  {
    var mc := t.macro;
    match tok {
      case KeyTok(sign, k) =>
        var v :- KeyValue(t, k);
        var keyList := keys;
        if sign == Press {
          if k in keyList {
            return Err(KeyAlreadyDown);
          }
          keyList := keyList + [k];
        } else if sign == Release {
          if k !in keyList {
            return Err(KeyNotDown);
          }
          keyList := Remove(keyList, k);
        }
        if !(0 <= v < 0x1_0000) {
          return Err(BadArgument);
        }
        if sign == Tap {
          return Ok(Step([mc.keyDown] + BE16(v) + [mc.keyUp] + BE16(v), keyList));
        }
        return Ok(Step([if sign == Press then mc.keyDown else mc.keyUp] + BE16(v), keyList));
      case CallTok(name, args) =>
        if name == "wheel" || name == "wheelh" {
          var opcode := if name == "wheel" then mc.wheel else mc.wheelh;
          if args == [] || !(-0x80 <= args[0] < 0x80) {
            return Err(BadArgument);
          }
          return Ok(Step([opcode, FromSignedByte(args[0])], keys));
        } else if name == "move" {
          if |args| < 2 {
            return Err(BadArgument);
          }
          var y, x := args[0], args[1];
          if !(-0x8000 <= x < 0x8000) || !(-0x8000 <= y < 0x8000) {
            return Err(BadArgument);
          }
          return Ok(Step([mc.move] + FromSignedBE16(x) + FromSignedBE16(y), keys));
        } else if name == "sleep" {
          if args == [] || Abs(args[0]) >= 0x1_0000 {
            return Err(BadArgument);
          }
          return Ok(Step([mc.sleep] + BE16(Abs(args[0])), keys));
        } else if args == [] {
          var code := ValueOf(Members(mc), name);
          if code.None? {
            return Err(UnknownMacroOp);
          }
          if !IsByte(code.value) {
            return Err(ByteRange);
          }
          return Ok(Step([code.value], keys));
        } else if HasPrefix(name, "+btn") || HasPrefix(name, "-btn") || HasPrefix(name, "btn") {
          var mask :- ButtonMask(args);
          if !(mask < 0x1_0000) {
            return Err(BadArgument);
          }
          if HasPrefix(name, "+btn") {
            return Ok(Step([mc.btnDown] + BE16(mask), keys));
          } else if HasPrefix(name, "-btn") {
            return Ok(Step([mc.btnUp] + BE16(mask), keys));
          }
          return Ok(Step([mc.btnDown] + BE16(mask) + [mc.btnUp] + BE16(mask), keys));
        }
        return Err(UnknownMacroOp);
    }
  }

  /** `Macro.macro_bin_from_text` */
  method MacroBinFromText(t: Tables, toks: seq<Token>) returns (r: Result<seq<seq<byte>>>)
    ensures r == Parse(t, toks)
  {
    var ret: seq<seq<byte>> := [];
    var keyList: seq<string> := [];
    for i := 0 to |toks|
      invariant ParseFrom(t, keyList, ret, toks[i..]) == Parse(t, toks)
    {
      assert toks[i..][0] == toks[i] && toks[i..][1..] == toks[i + 1..];
      var step := EncodeOp(t, keyList, toks[i]);
      if step.Err? {
        return Err(step.error);
      }
      ret := ret + [step.value.bytes];
      keyList := step.value.keys;
    }
    assert toks[|toks|..] == [];
    if keyList != [] {
      return Err(KeysNotReleased);
    }
    return Ok(ret);
  }

  // ---------------------------------------------------------------------------
  // Button masks

  predicate Mentions(nums: seq<int>, b: int)
  {
    nums != [] && (Abs(nums[0]) == b || Mentions(nums[1..], b))
  }

  lemma {:induction false} ZeroHasNoBits(j: nat)
    ensures !HasBit(0, j)
  {
    if j > 0 {
      ZeroHasNoBits(j - 1);
    }
  }

  /** Bit `j` of the parsed mask is set exactly when it was set before or button
      `j+1` is listed, and only buttons 1 to 5 count. */
  lemma {:induction false} MaskBits(nums: seq<int>, m: nat, j: nat)
    requires MaskFrom(nums, m).Ok?
    ensures HasBit(MaskFrom(nums, m).value, j) <==> HasBit(m, j) || (j < 5 && Mentions(nums, j + 1))
    decreases |nums|
  {
    if nums != [] {
      var b := Abs(nums[0]);
      if b > 5 {
        MaskBits(nums[1..], m, j);
      } else {
        MaskBits(nums[1..], SetBit(m, b - 1), j);
        SetBitBits(m, b - 1, j);
      }
    }
  }

  /** A parsed mask stays within the five button bits. */
  lemma {:induction false} MaskBound(nums: seq<int>, m: nat)
    requires m < 32 && MaskFrom(nums, m).Ok?
    ensures MaskFrom(nums, m).value < 32
    decreases |nums|
  {
    if nums != [] {
      var b := Abs(nums[0]);
      if b > 5 {
        MaskBound(nums[1..], m);
      } else {
        assert Pow2(5) == 32;
        SetBitBound(m, b - 1, 5);
        MaskBound(nums[1..], SetBit(m, b - 1));
      }
    }
  }

  lemma {:induction false} MentionsPositive(nums: seq<int>, b: int)
    requires forall i :: 0 <= i < |nums| ==> nums[i] > 0
    ensures Mentions(nums, b) <==> b in nums
    decreases |nums|
  {
    if nums != [] {
      assert nums == [nums[0]] + nums[1..];
      MentionsPositive(nums[1..], b);
    }
  }

  lemma AscendingHead(a: seq<int>)
    requires Ascending(a) && a != []
    ensures forall x :: x in a ==> a[0] <= x
    ensures forall x :: x in a[1..] <==> x in a && x != a[0]
  {
  }

  /** Two strictly increasing lists with the same elements are equal. */
  lemma {:induction false} AscendingUnique(a: seq<int>, b: seq<int>)
    requires Ascending(a) && Ascending(b)
    requires forall x :: x in a <==> x in b
    ensures a == b
    decreases |a|
  {
    if b != [] {
      assert b[0] in b;
    }
    if a != [] {
      assert a[0] in a && a[0] in b;
      assert b[0] in b;
      AscendingHead(a);
      AscendingHead(b);
      AscendingUnique(a[1..], b[1..]);
    }
  }

  /** A button list in the form the renderer writes (ascending, each 1 to 5) parses
      to a mask that renders back to the same list. The bound `n` is the five
      buttons; it is a parameter so that the proof does not unroll the list. */
  lemma ButtonsOfMask(nums: seq<int>, n: nat)
    requires n == 5
    requires Ascending(nums)
    requires forall i :: 0 <= i < |nums| ==> 1 <= nums[i] <= n
    ensures MaskFrom(nums, 0).Ok?
    ensures MaskFrom(nums, 0).value < 32
    ensures ButtonsUpTo(MaskFrom(nums, 0).value, n) == nums
  {
    MaskOk(nums, 0);
    var m := MaskFrom(nums, 0).value;
    MaskBound(nums, 0);
    ButtonsListed(m, n);
    forall k
      ensures k in ButtonsUpTo(m, n) <==> k in nums
    {
      ButtonListed(nums, k, n);
    }
    AscendingUnique(ButtonsUpTo(m, n), nums);
  }

  lemma ButtonListed(nums: seq<int>, k: int, n: nat)
    requires n == 5
    requires forall i :: 0 <= i < |nums| ==> 1 <= nums[i] <= n
    requires MaskFrom(nums, 0).Ok?
    ensures k in ButtonsUpTo(MaskFrom(nums, 0).value, n) <==> k in nums
  {
    ButtonsListed(MaskFrom(nums, 0).value, n);
    if 1 <= k <= n {
      MaskBits(nums, 0, k - 1);
      ZeroHasNoBits(k - 1);
      MentionsPositive(nums, k);
    } else {
      assert k !in nums;
    }
  }

  lemma {:induction false} MaskOk(nums: seq<int>, m: nat)
    requires forall i :: 0 <= i < |nums| ==> nums[i] != 0
    ensures MaskFrom(nums, m).Ok?
    decreases |nums|
  {
    if nums != [] {
      var b := Abs(nums[0]);
      MaskOk(nums[1..], if b > 5 then m else SetBit(m, b - 1));
    }
  }

  // ---------------------------------------------------------------------------
  // Key balance

  /** How a token changes the number of times key `k` is held down. */
  function Delta(tok: Token, k: string): int
  {
    match tok
    case KeyTok(Press, x) => if x == k then 1 else 0
    case KeyTok(Release, x) => if x == k then -1 else 0
    case _ => 0
  }

  /** Presses minus releases of key `k` in the tokens. */
  function Net(toks: seq<Token>, k: string): int
  {
    if toks == [] then 0 else Net(toks[..|toks| - 1], k) + Delta(toks[|toks| - 1], k)
  }

  /** The key list holds, once each, exactly the keys `done` left pressed. */
  ghost predicate Tracks(keys: seq<string>, done: seq<Token>)
  {
    && (forall k :: Net(done, k) == if k in keys then 1 else 0)
    && (forall k :: multiset(keys)[k] <= 1)
  }

  /** No key is pressed while held or released while not held. */
  ghost predicate HeldAtMostOnce(toks: seq<Token>)
  {
    forall k :: 0 <= Net(toks, k) <= 1
  }

  /** Every key pressed is released again. */
  ghost predicate AllReleased(toks: seq<Token>)
  {
    forall k :: Net(toks, k) == 0
  }

  lemma StepTracks(keys: seq<string>, after: seq<string>, done: seq<Token>, tok: Token)
    requires Tracks(keys, done)
    requires Moves(keys, tok, after)
    ensures Tracks(after, done + [tok])
  {
    assert (done + [tok])[..|done + [tok]| - 1] == done;
    forall k
      ensures Net(done + [tok], k) == (if k in after then 1 else 0)
      ensures multiset(after)[k] <= 1
    {
      assert Net(done + [tok], k) == Net(done, k) + Delta(tok, k);
      match tok
      case KeyTok(Press, x) =>
        assert multiset(after) == multiset(keys) + multiset{x};
      case KeyTok(Release, x) =>
        assert multiset(after) == multiset(keys) - multiset{x};
        assert multiset(after)[k] == if k == x then 0 else multiset(keys)[k];
      case _ =>
    }
  }

  lemma ParseFromStep(t: Tables, keys: seq<string>, acc: seq<seq<byte>>, toks: seq<Token>)
    requires toks != [] && ParseFrom(t, keys, acc, toks).Ok?
    ensures ParseOp(t, keys, toks[0]).Ok?
    ensures var s := ParseOp(t, keys, toks[0]).value;
            ParseFrom(t, s.keys, acc + [s.bytes], toks[1..]) == ParseFrom(t, keys, acc, toks)
  {
  }

  lemma PrefixAfterFirst<T>(done: seq<T>, toks: seq<T>, j: nat)
    requires 1 <= j <= |toks|
    ensures done + toks[..j] == (done + [toks[0]]) + toks[1..][..j - 1]
  {
  }

  /** Whatever the parser accepts presses and releases every key alternately: in
      each prefix a key is held at most once and never released more often than
      pressed, and at the end no key is held. So `+k` on a held key, `-k` on a key
      not held, and a key left held are all rejected. */
  lemma {:induction false} ParseBalances(t: Tables, keys: seq<string>, acc: seq<seq<byte>>,
                                         done: seq<Token>, toks: seq<Token>)
    requires Tracks(keys, done)
    requires ParseFrom(t, keys, acc, toks).Ok?
    ensures forall j :: 0 <= j <= |toks| ==> HeldAtMostOnce(done + toks[..j])
    ensures AllReleased(done + toks)
    decreases |toks|
  {
    if toks == [] {
      assert done + toks == done;
      assert forall j :: 0 <= j <= |toks| ==> done + toks[..j] == done;
    } else {
      ParseFromStep(t, keys, acc, toks);
      var s := ParseOp(t, keys, toks[0]).value;
      StepTracks(keys, s.keys, done, toks[0]);
      ParseBalances(t, s.keys, acc + [s.bytes], done + [toks[0]], toks[1..]);
      assert done + toks == (done + [toks[0]]) + toks[1..];
      forall j | 0 <= j <= |toks|
        ensures HeldAtMostOnce(done + toks[..j])
      {
        if j == 0 {
          assert done + toks[..j] == done;
        } else {
          PrefixAfterFirst(done, toks, j);
        }
      }
    }
  }

  lemma KeysBalanced(t: Tables, toks: seq<Token>)
    requires Parse(t, toks).Ok?
    ensures forall j :: 0 <= j <= |toks| ==> HeldAtMostOnce(toks[..j])
    ensures AllReleased(toks)
  {
    ParseBalances(t, [], [], [], toks);
    assert [] + toks == toks;
    assert forall j :: 0 <= j <= |toks| ==> [] + toks[..j] == toks[..j];
  }

  // ---------------------------------------------------------------------------
  // Text to bytes to text

  /** Each opcode the text form writes has the operand size `get_op_length` gives it. */
  predicate LengthsAgree(mc: MacroControl)
  {
    && OpLength(mc.keyDown) == 3 && OpLength(mc.keyUp) == 3
    && OpLength(mc.btnDown) == 3 && OpLength(mc.btnUp) == 3
    && OpLength(mc.sleep) == 3 && OpLength(mc.wheel) == 2 && OpLength(mc.wheelh) == 2
    && OpLength(mc.move) == 5
    && OpLength(mc.pause) == 1 && OpLength(mc.repeat) == 1 && OpLength(mc.loop) == 1
  }

  lemma MembersAt(mc: MacroControl)
    ensures Members(mc)[0] == Member("key_down", mc.keyDown) && Members(mc)[1] == Member("key_up", mc.keyUp)
    ensures Members(mc)[2] == Member("btn_down", mc.btnDown) && Members(mc)[3] == Member("btn_up", mc.btnUp)
    ensures Members(mc)[4] == Member("wheel", mc.wheel) && Members(mc)[5] == Member("wheelh", mc.wheelh)
    ensures Members(mc)[6] == Member("move", mc.move) && Members(mc)[7] == Member("sleep", mc.sleep)
    ensures Members(mc)[8] == Member("pause", mc.pause) && Members(mc)[9] == Member("repeat", mc.repeat)
    ensures Members(mc)[10] == Member("loop", mc.loop) && Members(mc)[11] == Member("next_page", mc.nextPage)
    ensures Members(mc)[12] == Member("macro_end", mc.macroEnd)
  {
  }

  /** Every named opcode is a MacroControl member. */
  lemma OpcodesAreOps(mc: MacroControl)
    ensures IsOp(mc, mc.keyDown) && IsOp(mc, mc.keyUp) && IsOp(mc, mc.btnDown) && IsOp(mc, mc.btnUp)
    ensures IsOp(mc, mc.wheel) && IsOp(mc, mc.wheelh) && IsOp(mc, mc.move) && IsOp(mc, mc.sleep)
    ensures IsOp(mc, mc.pause) && IsOp(mc, mc.repeat) && IsOp(mc, mc.loop) && IsOp(mc, mc.macroEnd)
  {
    MembersAt(mc);
  }

  lemma Differ(t: Table, i: nat, j: nat)
    requires Distinct(t) && i < j < |t|
    ensures t[i].value != t[j].value
  {
  }

  /** With distinct members, the renderer's tests pick the right branch and none of
      the written opcodes is the chain or end marker. */
  lemma OpcodesDiffer(mc: MacroControl)
    requires Distinct(Members(mc))
    ensures mc.macroEnd != mc.nextPage
    ensures mc.keyDown != mc.keyUp && mc.btnDown != mc.btnUp && mc.wheel != mc.wheelh
    ensures mc.sleep != mc.keyDown && mc.sleep != mc.keyUp
    ensures mc.wheel != mc.keyDown && mc.wheel != mc.keyUp && mc.wheel != mc.sleep
    ensures mc.wheelh != mc.keyDown && mc.wheelh != mc.keyUp && mc.wheelh != mc.sleep
    ensures mc.move != mc.keyDown && mc.move != mc.keyUp && mc.move != mc.sleep
    ensures mc.move != mc.wheel && mc.move != mc.wheelh
    ensures mc.pause != mc.keyDown && mc.pause != mc.keyUp && mc.pause != mc.sleep
    ensures mc.pause != mc.wheel && mc.pause != mc.wheelh && mc.pause != mc.move
    ensures mc.repeat != mc.keyDown && mc.repeat != mc.keyUp && mc.repeat != mc.sleep
    ensures mc.repeat != mc.wheel && mc.repeat != mc.wheelh && mc.repeat != mc.move
    ensures mc.loop != mc.keyDown && mc.loop != mc.keyUp && mc.loop != mc.sleep
    ensures mc.loop != mc.wheel && mc.loop != mc.wheelh && mc.loop != mc.move
    ensures mc.btnDown != mc.keyDown && mc.btnDown != mc.keyUp && mc.btnDown != mc.sleep
    ensures mc.btnDown != mc.wheel && mc.btnDown != mc.wheelh && mc.btnDown != mc.move
    ensures mc.btnDown != mc.pause && mc.btnDown != mc.repeat && mc.btnDown != mc.loop
    ensures mc.btnUp != mc.keyDown && mc.btnUp != mc.keyUp && mc.btnUp != mc.sleep
    ensures mc.btnUp != mc.wheel && mc.btnUp != mc.wheelh && mc.btnUp != mc.move
    ensures mc.btnUp != mc.pause && mc.btnUp != mc.repeat && mc.btnUp != mc.loop
    ensures mc.keyDown != mc.nextPage && mc.keyDown != mc.macroEnd
    ensures mc.keyUp != mc.nextPage && mc.keyUp != mc.macroEnd
    ensures mc.btnDown != mc.nextPage && mc.btnDown != mc.macroEnd
    ensures mc.btnUp != mc.nextPage && mc.btnUp != mc.macroEnd
    ensures mc.wheel != mc.nextPage && mc.wheel != mc.macroEnd
    ensures mc.wheelh != mc.nextPage && mc.wheelh != mc.macroEnd
    ensures mc.move != mc.nextPage && mc.move != mc.macroEnd
    ensures mc.sleep != mc.nextPage && mc.sleep != mc.macroEnd
    ensures mc.pause != mc.nextPage && mc.pause != mc.macroEnd
    ensures mc.repeat != mc.nextPage && mc.repeat != mc.macroEnd
    ensures mc.loop != mc.nextPage && mc.loop != mc.macroEnd
  {
    MembersAt(mc);
    var t := Members(mc);
    forall i, j | 0 <= i < j < 13
      ensures t[i].value != t[j].value
    {
      Differ(t, i, j);
    }
  }

  /** With distinct members, each opcode renders under its own name. */
  lemma OpcodeNames(mc: MacroControl)
    requires Distinct(Members(mc))
    ensures OpName(mc, mc.sleep) == "sleep" && OpName(mc, mc.move) == "move"
    ensures OpName(mc, mc.wheel) == "wheel" && OpName(mc, mc.wheelh) == "wheelh"
    ensures OpName(mc, mc.pause) == "pause" && OpName(mc, mc.repeat) == "repeat"
    ensures OpName(mc, mc.loop) == "loop"
  {
    MembersAt(mc);
    var t := Members(mc);
    assert t[7] in t && t[6] in t && t[4] in t && t[5] in t && t[8] in t && t[9] in t && t[10] in t;
    NameValueAgree(t, "sleep", mc.sleep);
    NameValueAgree(t, "move", mc.move);
    NameValueAgree(t, "wheel", mc.wheel);
    NameValueAgree(t, "wheelh", mc.wheelh);
    NameValueAgree(t, "pause", mc.pause);
    NameValueAgree(t, "repeat", mc.repeat);
    NameValueAgree(t, "loop", mc.loop);
  }

  /** A token in the form the renderer writes it: a key whose code names it back
      (a modifier, or a key code that is not also a modifier code), a call with the
      numbers its opcode carries (a `sleep` value is never negative, since the
      parser drops the sign), or a button list that is ascending, within 1 to 5 and
      not empty. */
  predicate Renderable(t: Tables, tok: Token)
  {
    match tok
    case KeyTok(_, k) =>
      HasName(t.modifier, k)
      || (HasName(t.keyCode, k) && !HasValue(t.modifier, ValueOf(t.keyCode, k).value))
    case CallTok(name, args) =>
      if name == "sleep" then |args| == 1 && args[0] >= 0
      else if name == "wheel" || name == "wheelh" then |args| == 1
      else if name == "move" then |args| == 2
      else if name == "pause" || name == "repeat" || name == "loop" then args == []
      else if name == "+btn" || name == "-btn" || name == "btn" then ButtonArgs(args)
      else false
  }

  /** A parsed element as instructions: a tap is a press and a release. */
  function Split(e: seq<byte>): (r: seq<seq<byte>>)
    ensures Concat(r) == e
  {
    if |e| == 6 then
      var r := [e[..3], e[3..]];
      assert r[1..] == [e[3..]];
      assert Concat([e[3..]]) == e[3..] by {
        assert [e[3..]][1..] == [];
      }
      assert e[..3] + e[3..] == e;
      r
    else
      assert Concat([e]) == e + [];
      [e]
  }

  function Instructions(elems: seq<seq<byte>>): (r: seq<seq<byte>>)
  {
    if elems == [] then [] else Split(elems[0]) + Instructions(elems[1..])
  }

  lemma {:induction false} ConcatInstructions(elems: seq<seq<byte>>)
    ensures Concat(Instructions(elems)) == Concat(elems)
  {
    if elems != [] {
      ConcatAppend(Split(elems[0]), Instructions(elems[1..]));
      ConcatInstructions(elems[1..]);
    }
  }

  lemma RenderStep(t: Tables, ret: seq<Token>, p: seq<byte>, more: seq<seq<byte>>, tok: Token)
    requires RenderOp(t, p) == Ok(Some(tok))
    ensures RenderFrom(t, ret, [p] + more) == RenderFrom(t, Collapse(ret + [tok]), more)
  {
    assert ([p] + more)[0] == p && ([p] + more)[1..] == more;
  }

  /** A key press or release renders as `+k` or `-k`, naming the code from the
      modifier table first and the key-code table second. */
  lemma RenderKey(t: Tables, e: seq<byte>)
    requires Valid(t) && |e| == 3 && (e[0] == t.macro.keyDown || e[0] == t.macro.keyUp)
    ensures RenderOp(t, e) == match KeyName(t, ReadBE16(e[1..]))
                              case Ok(k) => Ok(Some(KeyTok(if e[0] == t.macro.keyDown then Press else Release, k)))
                              case Err(x) => Err(x)
  {
  }

  lemma KeyPiece(t: Tables, sign: Sign, k: string)
    requires Valid(t) && sign != Tap && Renderable(t, KeyTok(sign, k))
    requires KeyValue(t, k).Ok? && 0 <= KeyValue(t, k).value < 0x1_0000
    ensures var v := KeyValue(t, k).value;
            RenderOp(t, [if sign == Press then t.macro.keyDown else t.macro.keyUp] + BE16(v))
            == Ok(Some(KeyTok(sign, k)))
  {
    OpcodesDiffer(t.macro);
    var v := KeyValue(t, k).value;
    var e := [if sign == Press then t.macro.keyDown else t.macro.keyUp] + BE16(v);
    assert e[1..] == BE16(v);
    BE16RoundTrip(v);
    if HasName(t.modifier, k) {
      NameValueAgree(t.modifier, k, v);
    } else {
      NameValueAgree(t.keyCode, k, v);
    }
    assert KeyName(t, v) == Ok(k);
    RenderKey(t, e);
  }

  lemma RenderSleep(t: Tables, e: seq<byte>)
    requires Valid(t) && |e| == 3 && e[0] == t.macro.sleep
    ensures RenderOp(t, e) == Ok(Some(CallTok("sleep", [ReadBE16(e[1..])])))
  {
    OpcodesDiffer(t.macro);
    OpcodeNames(t.macro);
  }

  lemma SleepPiece(t: Tables, v: u16)
    requires Valid(t)
    ensures RenderOp(t, [t.macro.sleep] + BE16(v)) == Ok(Some(CallTok("sleep", [v])))
  {
    var e := [t.macro.sleep] + BE16(v);
    assert e[1..] == BE16(v);
    BE16RoundTrip(v);
    RenderSleep(t, e);
  }

  lemma RenderWheel(t: Tables, e: seq<byte>)
    requires Valid(t) && |e| == 2 && (e[0] == t.macro.wheel || e[0] == t.macro.wheelh)
    ensures RenderOp(t, e) == Ok(Some(CallTok(if e[0] == t.macro.wheel then "wheel" else "wheelh", [SignedByte(e[1])])))
  {
    OpcodesDiffer(t.macro);
    OpcodeNames(t.macro);
  }

  lemma WheelPiece(t: Tables, horizontal: bool, a: int)
    requires Valid(t) && -0x80 <= a < 0x80
    ensures RenderOp(t, [if horizontal then t.macro.wheelh else t.macro.wheel, FromSignedByte(a)])
            == Ok(Some(CallTok(if horizontal then "wheelh" else "wheel", [a])))
  {
    OpcodesDiffer(t.macro);
    RenderWheel(t, [if horizontal then t.macro.wheelh else t.macro.wheel, FromSignedByte(a)]);
  }

  lemma RenderMove(t: Tables, e: seq<byte>)
    requires Valid(t) && |e| == 5 && e[0] == t.macro.move
    ensures RenderOp(t, e) == Ok(Some(CallTok("move", [SignedBE16(e[3..5]), SignedBE16(e[1..3])])))
  {
    OpcodesDiffer(t.macro);
    OpcodeNames(t.macro);
  }

  /** `move` swaps its words both ways: text `move(a,b)` is written as
      `[move, b, a]`, and that renders as `move(a,b)` again. */
  lemma MovePiece(t: Tables, a: int, b: int)
    requires Valid(t) && -0x8000 <= a < 0x8000 && -0x8000 <= b < 0x8000
    ensures RenderOp(t, [t.macro.move] + FromSignedBE16(b) + FromSignedBE16(a))
            == Ok(Some(CallTok("move", [a, b])))
  {
    var x, y := FromSignedBE16(b), FromSignedBE16(a);
    var e := [t.macro.move] + x + y;
    assert e[1..3] == x && e[3..5] == y;
    RenderMove(t, e);
  }

  /** The opcode of a call written without arguments. */
  function CallCode(mc: MacroControl, name: string): byte
  {
    if name == "pause" then mc.pause else if name == "repeat" then mc.repeat else mc.loop
  }

  lemma CallLookup(mc: MacroControl, name: string)
    requires Distinct(Members(mc))
    requires name == "pause" || name == "repeat" || name == "loop"
    ensures ValueOf(Members(mc), name) == Some(CallCode(mc, name))
  {
    MembersAt(mc);
    var t := Members(mc);
    assert t[8] in t && t[9] in t && t[10] in t;
    NameValueAgree(t, name, CallCode(mc, name));
  }

  lemma CallPiece(t: Tables, name: string)
    requires Valid(t) && (name == "pause" || name == "repeat" || name == "loop")
    ensures RenderOp(t, [CallCode(t.macro, name)]) == Ok(Some(CallTok(name, [])))
  {
    OpcodesDiffer(t.macro);
    OpcodeNames(t.macro);
  }

  lemma RenderButton(t: Tables, e: seq<byte>)
    requires Valid(t) && |e| == 3 && (e[0] == t.macro.btnDown || e[0] == t.macro.btnUp)
    ensures RenderOp(t, e) == Ok(Some(CallTok(if e[0] == t.macro.btnDown then "+btn" else "-btn",
                                              ButtonsUpTo(ReadBE16(e[1..]), 5))))
  {
    OpcodesDiffer(t.macro);
  }

  lemma ButtonMaskRenders(t: Tables, down: bool, m: nat)
    requires Valid(t) && m < 32
    ensures RenderOp(t, [if down then t.macro.btnDown else t.macro.btnUp] + BE16(m))
            == Ok(Some(CallTok(if down then "+btn" else "-btn", ButtonsUpTo(m, 5))))
  {
    OpcodesDiffer(t.macro);
    var e := [if down then t.macro.btnDown else t.macro.btnUp] + BE16(m);
    assert e[1..] == BE16(m);
    BE16RoundTrip(m);
    RenderButton(t, e);
  }

  /** A button list written by the parser renders back as the same list. */
  lemma ButtonPiece(t: Tables, down: bool, nums: seq<int>)
    requires Valid(t) && Ascending(nums) && forall i :: 0 <= i < |nums| ==> 1 <= nums[i] <= 5
    ensures MaskFrom(nums, 0).Ok? && MaskFrom(nums, 0).value < 32
    ensures RenderOp(t, [if down then t.macro.btnDown else t.macro.btnUp] + BE16(MaskFrom(nums, 0).value))
            == Ok(Some(CallTok(if down then "+btn" else "-btn", nums)))
  {
    ButtonsOfMask(nums, 5);
    ButtonMaskRenders(t, down, MaskFrom(nums, 0).value);
  }

  /** What the text round trip relies on in the tables. */
  predicate Codec(t: Tables)
  {
    Valid(t) && LengthsAgree(t.macro)
  }

  /** One instruction that renders as `tok`, which does not close a `+x -x` pair
      with the token before it, appends `tok`. */
  lemma SingleRenders(t: Tables, ret: seq<Token>, e: seq<byte>, more: seq<seq<byte>>, tok: Token)
    requires RenderOp(t, e) == Ok(Some(tok))
    requires |ret| > 0 ==> !Pairs(ret[|ret| - 1], tok)
    ensures RenderFrom(t, ret, [e] + more) == RenderFrom(t, ret + [tok], more)
  {
    RenderStep(t, ret, e, more, tok);
  }

  /** A press and the matching release render as the bare tap. */
  lemma TapRenders(t: Tables, ret: seq<Token>, down: seq<byte>, up: seq<byte>, more: seq<seq<byte>>,
                   a: Token, b: Token)
    requires RenderOp(t, down) == Ok(Some(a)) && RenderOp(t, up) == Ok(Some(b))
    requires Pairs(a, b)
    requires |ret| > 0 ==> !Pairs(ret[|ret| - 1], a)
    ensures RenderFrom(t, ret, [down, up] + more) == RenderFrom(t, ret + [Unsigned(a)], more)
  {
    assert [down, up] + more == [down] + ([up] + more);
    SingleRenders(t, ret, down, [up] + more, a);
    RenderStep(t, ret + [a], up, more, b);
    CollapsePair(ret, a, b);
  }

  /** The tap rule on a `+x -x` pair. */
  lemma CollapsePair(ret: seq<Token>, a: Token, b: Token)
    requires Pairs(a, b)
    ensures Collapse(ret + [a] + [b]) == ret + [Unsigned(a)]
  {
    var s := ret + [a] + [b];
    assert s[|s| - 2] == a && s[|s| - 1] == b;
    assert s[|s| - 2 := Unsigned(a)][..|s| - 1] == ret + [Unsigned(a)];
  }

  lemma SplitSingle(e: seq<byte>)
    requires |e| != 6
    ensures Split(e) == [e]
  {
  }

  lemma SplitTap(e: seq<byte>, down: seq<byte>, up: seq<byte>)
    requires e == down + up && |down| == 3 && |up| == 3
    ensures Split(e) == [down, up]
  {
    assert e[..3] == down && e[3..] == up;
  }

  /** The bytes the parser writes for a key token. */
  lemma ParseKey(t: Tables, keys: seq<string>, sign: Sign, k: string)
    requires ParseOp(t, keys, KeyTok(sign, k)).Ok?
    ensures KeyValue(t, k).Ok? && 0 <= KeyValue(t, k).value < 0x1_0000
    ensures var v := KeyValue(t, k).value;
            var down, up := [t.macro.keyDown] + BE16(v), [t.macro.keyUp] + BE16(v);
            ParseOp(t, keys, KeyTok(sign, k)).value.bytes
            == if sign == Press then down else if sign == Release then up else down + up
  {
  }

  lemma KeyOpsWellFormed(t: Tables, v: u16)
    requires Codec(t)
    ensures WellFormedOp(t.macro, [t.macro.keyDown] + BE16(v))
    ensures WellFormedOp(t.macro, [t.macro.keyUp] + BE16(v))
  {
    OpcodesDiffer(t.macro);
    OpcodesAreOps(t.macro);
  }

  /** The instructions of a parsed key token are whole, and rendering them after
      `ret` appends exactly that token (a tap collapses back from `+k -k`). */
  lemma KeyTokRoundTrip(t: Tables, sign: Sign, k: string, bytes: seq<byte>,
                        ret: seq<Token>, more: seq<seq<byte>>)
    requires Codec(t) && Renderable(t, KeyTok(sign, k))
    requires KeyValue(t, k).Ok? && 0 <= KeyValue(t, k).value < 0x1_0000
    requires var v := KeyValue(t, k).value;
             var down, up := [t.macro.keyDown] + BE16(v), [t.macro.keyUp] + BE16(v);
             bytes == if sign == Press then down else if sign == Release then up else down + up
    requires |ret| > 0 ==> !Pairs(ret[|ret| - 1], KeyTok(sign, k))
    ensures AllWellFormed(t.macro, Split(bytes))
    ensures RenderFrom(t, ret, Split(bytes) + more) == RenderFrom(t, ret + [KeyTok(sign, k)], more)
  {
    var mc := t.macro;
    var v := KeyValue(t, k).value;
    var down, up := [mc.keyDown] + BE16(v), [mc.keyUp] + BE16(v);
    KeyOpsWellFormed(t, v);
    if sign == Tap {
      SplitTap(bytes, down, up);
      KeyPiece(t, Press, k);
      KeyPiece(t, Release, k);
      TapRenders(t, ret, down, up, more, KeyTok(Press, k), KeyTok(Release, k));
    } else {
      SplitSingle(bytes);
      KeyPiece(t, sign, k);
      SingleRenders(t, ret, bytes, more, KeyTok(sign, k));
    }
  }

  lemma CallOpsWellFormed(t: Tables)
    requires Codec(t)
    ensures forall v: u16 :: WellFormedOp(t.macro, [t.macro.sleep] + BE16(v))
    ensures forall b: byte :: WellFormedOp(t.macro, [t.macro.wheel, b]) && WellFormedOp(t.macro, [t.macro.wheelh, b])
    ensures forall x: seq<byte>, y: seq<byte> :: |x| == 2 && |y| == 2 ==> WellFormedOp(t.macro, [t.macro.move] + x + y)
    ensures WellFormedOp(t.macro, [t.macro.pause]) && WellFormedOp(t.macro, [t.macro.repeat])
    ensures WellFormedOp(t.macro, [t.macro.loop])
    ensures forall v: u16 :: WellFormedOp(t.macro, [t.macro.btnDown] + BE16(v))
    ensures forall v: u16 :: WellFormedOp(t.macro, [t.macro.btnUp] + BE16(v))
  {
    OpcodesDiffer(t.macro);
    OpcodesAreOps(t.macro);
  }

  /** The bytes the parser writes for the calls the renderer produces. */
  lemma ParseCall(t: Tables, keys: seq<string>, name: string, args: seq<int>)
    requires Renderable(t, CallTok(name, args)) && ParseOp(t, keys, CallTok(name, args)).Ok?
    ensures var mc, bytes := t.macro, ParseOp(t, keys, CallTok(name, args)).value.bytes;
            && (name == "sleep" ==> args[0] < 0x1_0000 && bytes == [mc.sleep] + BE16(args[0]))
            && (name == "wheel" ==> -0x80 <= args[0] < 0x80 && bytes == [mc.wheel, FromSignedByte(args[0])])
            && (name == "wheelh" ==> -0x80 <= args[0] < 0x80 && bytes == [mc.wheelh, FromSignedByte(args[0])])
            && (name == "move" ==>
                  && -0x8000 <= args[0] < 0x8000 && -0x8000 <= args[1] < 0x8000
                  && bytes == [mc.move] + FromSignedBE16(args[1]) + FromSignedBE16(args[0]))
  {
  }

  lemma ParsePlainCall(t: Tables, keys: seq<string>, name: string)
    requires Valid(t) && (name == "pause" || name == "repeat" || name == "loop")
    ensures ParseOp(t, keys, CallTok(name, [])) == Ok(Step([CallCode(t.macro, name)], keys))
  {
    CallLookup(t.macro, name);
  }

  lemma ParseButtons(t: Tables, keys: seq<string>, name: string, args: seq<int>)
    requires Renderable(t, CallTok(name, args))
    requires name == "+btn" || name == "-btn" || name == "btn"
    requires ParseOp(t, keys, CallTok(name, args)).Ok?
    ensures MaskFrom(args, 0).Ok? && MaskFrom(args, 0).value < 0x1_0000
    ensures var mc, m := t.macro, MaskFrom(args, 0).value;
            ParseOp(t, keys, CallTok(name, args)).value.bytes
            == if name == "+btn" then [mc.btnDown] + BE16(m)
               else if name == "-btn" then [mc.btnUp] + BE16(m)
               else ([mc.btnDown] + BE16(m)) + ([mc.btnUp] + BE16(m))
  {
    if name == "+btn" {
      assert HasPrefix(name, "+btn");
    } else if name == "-btn" {
      assert HasPrefix(name, "-btn") && !HasPrefix(name, "+btn");
    } else {
      assert HasPrefix(name, "btn") && !HasPrefix(name, "+btn") && !HasPrefix(name, "-btn");
    }
  }

  /** One instruction that renders as `tok` appends `tok`. */
  lemma OneInstruction(t: Tables, bytes: seq<byte>, tok: Token, ret: seq<Token>, more: seq<seq<byte>>)
    requires |bytes| != 6 && WellFormedOp(t.macro, bytes) && RenderOp(t, bytes) == Ok(Some(tok))
    requires |ret| > 0 ==> !Pairs(ret[|ret| - 1], tok)
    ensures AllWellFormed(t.macro, Split(bytes))
    ensures RenderFrom(t, ret, Split(bytes) + more) == RenderFrom(t, ret + [tok], more)
  {
    SplitSingle(bytes);
    SingleRenders(t, ret, bytes, more, tok);
  }

  /** The call tokens other than buttons: each is one instruction that renders
      back as the token. */
  lemma SleepTokRoundTrip(t: Tables, v: u16, ret: seq<Token>, more: seq<seq<byte>>)
    requires Codec(t)
    requires |ret| > 0 ==> !Pairs(ret[|ret| - 1], CallTok("sleep", [v]))
    ensures AllWellFormed(t.macro, Split([t.macro.sleep] + BE16(v)))
    ensures RenderFrom(t, ret, Split([t.macro.sleep] + BE16(v)) + more)
            == RenderFrom(t, ret + [CallTok("sleep", [v])], more)
  {
    CallOpsWellFormed(t);
    SleepPiece(t, v);
    OneInstruction(t, [t.macro.sleep] + BE16(v), CallTok("sleep", [v]), ret, more);
  }

  lemma WheelTokRoundTrip(t: Tables, horizontal: bool, a: int, ret: seq<Token>, more: seq<seq<byte>>)
    requires Codec(t) && -0x80 <= a < 0x80
    requires |ret| > 0 ==> !Pairs(ret[|ret| - 1], CallTok(if horizontal then "wheelh" else "wheel", [a]))
    ensures var e := [if horizontal then t.macro.wheelh else t.macro.wheel, FromSignedByte(a)];
            AllWellFormed(t.macro, Split(e))
            && RenderFrom(t, ret, Split(e) + more)
               == RenderFrom(t, ret + [CallTok(if horizontal then "wheelh" else "wheel", [a])], more)
  {
    CallOpsWellFormed(t);
    WheelPiece(t, horizontal, a);
    OneInstruction(t, [if horizontal then t.macro.wheelh else t.macro.wheel, FromSignedByte(a)],
                   CallTok(if horizontal then "wheelh" else "wheel", [a]), ret, more);
  }

  lemma MoveTokRoundTrip(t: Tables, a: int, b: int, ret: seq<Token>, more: seq<seq<byte>>)
    requires Codec(t) && -0x8000 <= a < 0x8000 && -0x8000 <= b < 0x8000
    requires |ret| > 0 ==> !Pairs(ret[|ret| - 1], CallTok("move", [a, b]))
    ensures var e := [t.macro.move] + FromSignedBE16(b) + FromSignedBE16(a);
            AllWellFormed(t.macro, Split(e))
            && RenderFrom(t, ret, Split(e) + more) == RenderFrom(t, ret + [CallTok("move", [a, b])], more)
  {
    CallOpsWellFormed(t);
    MovePiece(t, a, b);
    OneInstruction(t, [t.macro.move] + FromSignedBE16(b) + FromSignedBE16(a), CallTok("move", [a, b]), ret, more);
  }

  lemma PlainTokRoundTrip(t: Tables, name: string, ret: seq<Token>, more: seq<seq<byte>>)
    requires name == "pause" || name == "repeat" || name == "loop"
    requires Codec(t)
    requires |ret| > 0 ==> !Pairs(ret[|ret| - 1], CallTok(name, []))
    ensures AllWellFormed(t.macro, Split([CallCode(t.macro, name)]))
    ensures RenderFrom(t, ret, Split([CallCode(t.macro, name)]) + more) == RenderFrom(t, ret + [CallTok(name, [])], more)
  {
    CallOpsWellFormed(t);
    CallPiece(t, name);
    OneInstruction(t, [CallCode(t.macro, name)], CallTok(name, []), ret, more);
  }

  /** A button list the parser accepts: ascending numbers 1 to 5. */
  predicate ButtonArgs(args: seq<int>)
  {
    args != [] && Ascending(args) && forall i :: 0 <= i < |args| ==> 1 <= args[i] <= 5
  }

  /** `+btn(..)` and `-btn(..)` are one instruction each. */
  lemma ButtonTokRoundTrip(t: Tables, down: bool, args: seq<int>, ret: seq<Token>, more: seq<seq<byte>>)
    requires Codec(t) && ButtonArgs(args)
    requires |ret| > 0 ==> !Pairs(ret[|ret| - 1], CallTok(if down then "+btn" else "-btn", args))
    ensures MaskFrom(args, 0).Ok? && MaskFrom(args, 0).value < 32
    ensures var e := [if down then t.macro.btnDown else t.macro.btnUp] + BE16(MaskFrom(args, 0).value);
            AllWellFormed(t.macro, Split(e))
            && RenderFrom(t, ret, Split(e) + more)
               == RenderFrom(t, ret + [CallTok(if down then "+btn" else "-btn", args)], more)
  {
    CallOpsWellFormed(t);
    ButtonPiece(t, down, args);
    var e := [if down then t.macro.btnDown else t.macro.btnUp] + BE16(MaskFrom(args, 0).value);
    OneInstruction(t, e, CallTok(if down then "+btn" else "-btn", args), ret, more);
  }

  lemma ButtonOpsWellFormed(t: Tables, v: u16)
    requires Codec(t)
    ensures WellFormedOp(t.macro, [t.macro.btnDown] + BE16(v))
    ensures WellFormedOp(t.macro, [t.macro.btnUp] + BE16(v))
  {
    OpcodesDiffer(t.macro);
    OpcodesAreOps(t.macro);
  }

  /** A press and its release written as one element: two instructions that
      render as the bare tap. */
  lemma TapPair(t: Tables, down: seq<byte>, up: seq<byte>, a: Token, b: Token,
                ret: seq<Token>, more: seq<seq<byte>>)
    requires |down| == 3 && |up| == 3 && WellFormedOp(t.macro, down) && WellFormedOp(t.macro, up)
    requires RenderOp(t, down) == Ok(Some(a)) && RenderOp(t, up) == Ok(Some(b)) && Pairs(a, b)
    requires |ret| > 0 ==> !Pairs(ret[|ret| - 1], a)
    ensures AllWellFormed(t.macro, Split(down + up))
    ensures RenderFrom(t, ret, Split(down + up) + more) == RenderFrom(t, ret + [Unsigned(a)], more)
  {
    SplitTap(down + up, down, up);
    TapRenders(t, ret, down, up, more, a, b);
  }

  /** A bare `btn(..)` is a press and a release that collapse back into it. */
  lemma ButtonTapRoundTrip(t: Tables, args: seq<int>, ret: seq<Token>, more: seq<seq<byte>>)
    requires Codec(t) && ButtonArgs(args)
    ensures MaskFrom(args, 0).Ok? && MaskFrom(args, 0).value < 32
    ensures var m := MaskFrom(args, 0).value;
            var e := ([t.macro.btnDown] + BE16(m)) + ([t.macro.btnUp] + BE16(m));
            AllWellFormed(t.macro, Split(e))
            && RenderFrom(t, ret, Split(e) + more) == RenderFrom(t, ret + [CallTok("btn", args)], more)
  {
    var mc := t.macro;
    ButtonPiece(t, true, args);
    ButtonPiece(t, false, args);
    var m := MaskFrom(args, 0).value;
    ButtonOpsWellFormed(t, m);
    TapPair(t, [mc.btnDown] + BE16(m), [mc.btnUp] + BE16(m), CallTok("+btn", args), CallTok("-btn", args), ret, more);
    assert Unsigned(CallTok("+btn", args)) == CallTok("btn", args);
  }

  /** Every renderable token the parser accepts is written as whole instructions
      that render back as that token. */
  lemma TokenRoundTrip(t: Tables, keys: seq<string>, tok: Token, bytes: seq<byte>,
                       ret: seq<Token>, more: seq<seq<byte>>)
    requires Codec(t) && Renderable(t, tok)
    requires ParseOp(t, keys, tok).Ok? && bytes == ParseOp(t, keys, tok).value.bytes
    requires |ret| > 0 ==> !Pairs(ret[|ret| - 1], tok)
    ensures AllWellFormed(t.macro, Split(bytes))
    ensures RenderFrom(t, ret, Split(bytes) + more) == RenderFrom(t, ret + [tok], more)
  {
    match tok
    case KeyTok(sign, k) =>
      ParseKey(t, keys, sign, k);
      KeyTokRoundTrip(t, sign, k, bytes, ret, more);
    case CallTok(name, args) =>
      if name == "sleep" {
        ParseCall(t, keys, name, args);
        assert args == [args[0]];
        SleepTokRoundTrip(t, args[0], ret, more);
      } else if name == "wheel" || name == "wheelh" {
        ParseCall(t, keys, name, args);
        assert args == [args[0]];
        WheelTokRoundTrip(t, name == "wheelh", args[0], ret, more);
      } else if name == "move" {
        ParseCall(t, keys, name, args);
        assert args == [args[0], args[1]];
        MoveTokRoundTrip(t, args[0], args[1], ret, more);
      } else if name == "pause" || name == "repeat" || name == "loop" {
        ParsePlainCall(t, keys, name);
        PlainTokRoundTrip(t, name, ret, more);
      } else if name == "btn" {
        ParseButtons(t, keys, name, args);
        ButtonTapRoundTrip(t, args, ret, more);
      } else {
        ParseButtons(t, keys, name, args);
        ButtonTokRoundTrip(t, name == "+btn", args, ret, more);
      }
  }

  /** The parser's accumulator only prefixes its result. */
  lemma {:induction false} ParseAcc(t: Tables, keys: seq<string>, acc: seq<seq<byte>>, toks: seq<Token>)
    ensures ParseFrom(t, keys, acc, toks).Ok? == ParseFrom(t, keys, [], toks).Ok?
    ensures ParseFrom(t, keys, acc, toks).Ok? ==>
              ParseFrom(t, keys, acc, toks).value == acc + ParseFrom(t, keys, [], toks).value
    decreases |toks|
  {
    if toks != [] {
      match ParseOp(t, keys, toks[0])
      case Err(_) =>
      case Ok(s) =>
        assert [] + [s.bytes] == [s.bytes];
        ParseAcc(t, s.keys, acc + [s.bytes], toks[1..]);
        ParseAcc(t, s.keys, [s.bytes], toks[1..]);
        if ParseFrom(t, s.keys, [], toks[1..]).Ok? {
          var v := ParseFrom(t, s.keys, [], toks[1..]).value;
          assert (acc + [s.bytes]) + v == acc + ([s.bytes] + v);
        }
    }
  }

  /** No token closes a `+x -x` pair with the one before it (the renderer would
      fold such a pair into the bare tap). */
  predicate NoPairs(toks: seq<Token>)
  {
    forall i :: 0 < i < |toks| ==> !Pairs(toks[i - 1], toks[i])
  }

  lemma InstructionsCons(b: seq<byte>, ops: seq<seq<byte>>)
    ensures Instructions([b] + ops) == Split(b) + Instructions(ops)
  {
    assert ([b] + ops)[0] == b && ([b] + ops)[1..] == ops;
  }

  lemma WellFormedAppend(mc: MacroControl, a: seq<seq<byte>>, b: seq<seq<byte>>)
    requires AllWellFormed(mc, a) && AllWellFormed(mc, b)
    ensures AllWellFormed(mc, a + b)
  {
    forall i | 0 <= i < |a + b|
      ensures WellFormedOp(mc, (a + b)[i])
    {
      if i >= |a| {
        assert (a + b)[i] == b[i - |a|];
      }
    }
  }

  /** A parse that succeeds is the first token's bytes and the parse of the rest. */
  lemma ParseCons(t: Tables, keys: seq<string>, toks: seq<Token>)
    requires toks != [] && ParseFrom(t, keys, [], toks).Ok?
    ensures ParseOp(t, keys, toks[0]).Ok?
    ensures var st := ParseOp(t, keys, toks[0]).value;
            && ParseFrom(t, st.keys, [], toks[1..]).Ok?
            && ParseFrom(t, keys, [], toks).value == [st.bytes] + ParseFrom(t, st.keys, [], toks[1..]).value
  {
    ParseFromStep(t, keys, [], toks);
    var st := ParseOp(t, keys, toks[0]).value;
    assert [] + [st.bytes] == [st.bytes];
    ParseAcc(t, st.keys, [st.bytes], toks[1..]);
  }

  lemma TailFacts(t: Tables, toks: seq<Token>)
    requires toks != [] && NoPairs(toks) && forall i :: 0 <= i < |toks| ==> Renderable(t, toks[i])
    ensures Renderable(t, toks[0]) && NoPairs(toks[1..])
    ensures forall i :: 0 <= i < |toks[1..]| ==> Renderable(t, toks[1..][i])
    ensures |toks| > 1 ==> !Pairs(toks[0], toks[1..][0])
  {
    forall i | 0 < i < |toks[1..]|
      ensures !Pairs(toks[1..][i - 1], toks[1..][i])
    {
      assert toks[1..][i - 1] == toks[i] && toks[1..][i] == toks[i + 1];
    }
  }

  lemma EndIsOp(mc: MacroControl)
    ensures IsOp(mc, mc.macroEnd)
    ensures Distinct(Members(mc)) ==> mc.macroEnd != mc.nextPage
  {
    OpcodesAreOps(mc);
    if Distinct(Members(mc)) {
      OpcodesDiffer(mc);
    }
  }

  /** The inductive step of the round trip: one more token in front. */
  lemma RoundTripStep(t: Tables, keys: seq<string>, tok: Token, bytes: seq<byte>, more: seq<seq<byte>>,
                      rest: seq<Token>, ret: seq<Token>)
    requires Codec(t) && Renderable(t, tok)
    requires ParseOp(t, keys, tok).Ok? && bytes == ParseOp(t, keys, tok).value.bytes
    requires |ret| > 0 ==> !Pairs(ret[|ret| - 1], tok)
    requires AllWellFormed(t.macro, more) && RenderFrom(t, ret + [tok], more) == Ok(ret + [tok] + rest)
    ensures AllWellFormed(t.macro, Split(bytes) + more)
    ensures RenderFrom(t, ret, Split(bytes) + more) == Ok(ret + ([tok] + rest))
  {
    TokenRoundTrip(t, keys, tok, bytes, ret, more);
    WellFormedAppend(t.macro, Split(bytes), more);
    assert ret + [tok] + rest == ret + ([tok] + rest);
  }

  /** Rendering the instructions of parsed tokens after `ret` appends exactly
      those tokens. */
  lemma {:induction false} RoundTripFrom(t: Tables, keys: seq<string>, toks: seq<Token>, ret: seq<Token>)
    requires Codec(t) && forall i :: 0 <= i < |toks| ==> Renderable(t, toks[i])
    requires NoPairs(toks) && (|ret| > 0 && |toks| > 0 ==> !Pairs(ret[|ret| - 1], toks[0]))
    requires ParseFrom(t, keys, [], toks).Ok?
    ensures var ins := Instructions(ParseFrom(t, keys, [], toks).value);
            AllWellFormed(t.macro, ins) && RenderFrom(t, ret, ins) == Ok(ret + toks)
    decreases |toks|
  {
    if toks != [] {
      var tok, rest := toks[0], toks[1..];
      TailFacts(t, toks);
      ParseCons(t, keys, toks);
      var st := ParseOp(t, keys, tok).value;
      var ops := ParseFrom(t, st.keys, [], rest).value;
      RoundTripFrom(t, st.keys, rest, ret + [tok]);
      InstructionsCons(st.bytes, ops);
      RoundTripStep(t, keys, tok, st.bytes, Instructions(ops), rest, ret);
      assert [tok] + rest == toks;
    } else {
      assert ret + toks == ret;
    }
  }

  /** The text round trip: the bytes the parser writes for a macro text, followed
      by `macro_end`, decode to whole instructions, and those render as the same
      text again. It holds for every text whose tokens are in the renderer's own
      form and which does not spell a tap as a press and its release. */
  lemma TextRoundTrip(t: Tables, g: Geometry, read: int -> seq<byte>, toks: seq<Token>,
                      rest: seq<byte>, fuel: nat)
    requires Codec(t) && forall i :: 0 <= i < |toks| ==> Renderable(t, toks[i])
    requires NoPairs(toks) && Parse(t, toks).Ok?
    ensures var mc, elems := t.macro, Parse(t, toks).value;
            && DecodeFrom(mc, g, read, [], Concat(elems) + [mc.macroEnd] + rest, 0, fuel)
               == Ok(Instructions(elems))
            && Render(t, Instructions(elems)) == Ok(toks)
  {
    var mc, elems := t.macro, Parse(t, toks).value;
    RoundTripFrom(t, [], toks, []);
    assert [] + toks == toks;
    EndIsOp(mc);
    ConcatInstructions(elems);
    DecodeConcat(mc, g, read, [], Instructions(elems), rest, fuel);
    assert [] + Instructions(elems) == Instructions(elems);
  }
}
