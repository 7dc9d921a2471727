/** The macro pages of a profile read back through the decoder. With the
    corrected packing every macro the profile page refers to decodes, page chain
    by page chain, to exactly its instructions. */
module MacroPacking {
  import opened Wrappers
  import opened Bytes
  import opened Constants
  import opened Macro
  import ProfileCodec
  import opened ProfileEncode

  // ---------------------------------------------------------------------------
  // The pages of a packer state

  /** Macro page `k` of a packer state, counting from 1 in the order the pages
      are written: a finished page, or the page being filled. */
  function PageOf(s: Packer, k: nat): seq<byte>
  {
    if 1 <= k <= |s.done| then s.done[k - 1] else s.page
  }

  /** The finished pages are exactly those before the current one, every page
      has the page size, and the cursor leaves room for a chain record. */
  predicate Open(size: nat, s: Packer)
  {
    && s.idx >= 1 && |s.done| == s.idx - 1 && |s.page| == size
    && (forall k :: 0 <= k < |s.done| ==> |s.done[k]| == size)
    && s.pos + 12 <= size
  }

  /** `t` is reached from `s` by writing only at or after the cursor of `s`: the
      finished pages are kept and the bytes before the cursor stay as they are. */
  predicate Grows(s: Packer, t: Packer)
  {
    && s.idx <= t.idx && |s.done| <= |t.done| && t.done[..|s.done|] == s.done
    && (s.idx == t.idx ==> s.pos <= t.pos)
    && s.pos <= |s.page| && s.pos <= |PageOf(t, s.idx)|
    && PageOf(t, s.idx)[..s.pos] == s.page[..s.pos]
  }

  lemma GrowsTrans(a: Packer, b: Packer, c: Packer)
    requires |a.done| == a.idx - 1 && |b.done| == b.idx - 1 && |c.done| == c.idx - 1
    requires Grows(a, b) && Grows(b, c)
    ensures Grows(a, c)
  {
    if a.idx < b.idx {
      assert PageOf(b, a.idx) == b.done[a.idx - 1];
      assert c.done[..|b.done|][a.idx - 1] == c.done[a.idx - 1];
    } else {
      assert PageOf(c, a.idx)[..b.pos][..a.pos] == PageOf(c, a.idx)[..a.pos];
      assert b.page[..b.pos][..a.pos] == b.page[..a.pos];
    }
  }

  /** Writing `x` at the cursor and moving past it. */
  lemma WriteGrows(size: nat, s: Packer, x: seq<byte>)
    requires Open(size, s) && s.pos + |x| + 12 <= size
    ensures var t := s.(page := SliceAssign(s.page, s.pos, s.pos + |x|, x), pos := s.pos + |x|);
            Grows(s, t) && Open(size, t) && t.page[s.pos..t.pos] == x
  {
    SliceAssignInPlace(s.page, s.pos, x);
  }

  /** Closing the page with a chain record at the cursor and going on with `x`
      at the start of the next page. */
  lemma ChainGrows(size: nat, s: Packer, chain: seq<byte>, x: seq<byte>)
    requires Open(size, s) && |chain| == 5 && |x| + 12 <= size
    ensures var closed := SliceAssign(s.page, s.pos, s.pos + 5, chain);
            var t := Packer(s.first, s.done + [closed], SliceAssign(Fill(size, 0xFF), 0, |x|, x), |x|, s.idx + 1);
            && Grows(s, t) && Open(size, t) && PageOf(t, s.idx) == closed
            && closed[s.pos..s.pos + 5] == chain && t.page[..|x|] == x
  {
    var closed := SliceAssign(s.page, s.pos, s.pos + 5, chain);
    SliceAssignInPlace(s.page, s.pos, chain);
    SliceAssignInPlace(Fill(size, 0xFF), 0, x);
    var t := Packer(s.first, s.done + [closed], SliceAssign(Fill(size, 0xFF), 0, |x|, x), |x|, s.idx + 1);
    assert t.done[..|s.done|] == s.done;
    assert PageOf(t, s.idx) == closed;
  }

  /** The instructions of a macro, each small enough for an empty page. */
  predicate Small(size: nat, ops: seq<seq<byte>>)
  {
    forall i :: 0 <= i < |ops| ==> 1 <= |ops[i]| && |ops[i]| + 12 <= size
  }

  /** The corrected inner loop only writes at or after the cursor, leaves room for
      a chain record and does not touch the profile page. */
  lemma {:induction false} PlaceGrows(mc: MacroControl, layout: seq<seq<int>>, pi: nat, size: nat,
                                      s: Packer, ops: seq<seq<byte>>)
    requires Open(size, s) && Small(size, ops)
    requires PlaceOps(mc, layout, pi, size, Corrected, s, ops).Ok?
    ensures var t := PlaceOps(mc, layout, pi, size, Corrected, s, ops).value;
            Grows(s, t) && Open(size, t) && t.first == s.first
    decreases |ops|
  {
    if ops != [] {
      var op := ops[0];
      assert Small(size, ops[1..]) by {
        forall i | 0 <= i < |ops[1..]|
          ensures 1 <= |ops[1..][i]| && |ops[1..][i]| + 12 <= size
        {
          assert ops[1..][i] == ops[i + 1];
        }
      }
      assert ops == [op] + ops[1..];
      var s' := Step(mc, layout, pi, size, s, op, ops[1..]);
      PlaceGrows(mc, layout, pi, size, s', ops[1..]);
      GrowsTrans(s, s', PlaceOps(mc, layout, pi, size, Corrected, s', ops[1..]).value);
    }
  }

  /** The state after the corrected loop has placed `op`, and the facts about
      where it went: at the cursor when there is room, else at the start of the
      next page after a chain record at the cursor. */
  lemma Step(mc: MacroControl, layout: seq<seq<int>>, pi: nat, size: nat,
             s: Packer, op: seq<byte>, rest: seq<seq<byte>>) returns (s': Packer)
    requires Open(size, s) && 1 <= |op| && |op| + 12 <= size
    requires PlaceOps(mc, layout, pi, size, Corrected, s, [op] + rest).Ok?
    ensures PlaceOps(mc, layout, pi, size, Corrected, s, [op] + rest)
            == PlaceOps(mc, layout, pi, size, Corrected, s', rest)
    ensures Grows(s, s') && Open(size, s') && s'.first == s.first && |op| <= s'.pos
    ensures PageOf(s', s'.idx)[s'.pos - |op|..s'.pos] == op
    ensures Room(Corrected, s.pos, |op|, size) ==> s'.idx == s.idx && s'.pos == s.pos + |op|
    ensures !Room(Corrected, s.pos, |op|, size) ==>
              && s'.idx == s.idx + 1 && s'.pos == |op|
              && s.idx + 1 < |layout[pi]| && 0 <= layout[pi][s.idx + 1] < 0x1_0000
              && pi < |layout|
              && PageOf(s', s.idx)[s.pos..s.pos + 5] == ChainRecord(mc, layout[pi][s.idx + 1]).value
  {
    assert ([op] + rest)[0] == op && ([op] + rest)[1..] == rest;
    if Room(Corrected, s.pos, |op|, size) {
      s' := s.(page := SliceAssign(s.page, s.pos, s.pos + |op|, op), pos := s.pos + |op|);
      WriteGrows(size, s, op);
    } else {
      var next := LayoutAt(layout, pi, s.idx + 1).value;
      var chain := ChainRecord(mc, next).value;
      var closed := SliceAssign(s.page, s.pos, s.pos + 5, chain);
      s' := Packer(s.first, s.done + [closed], SliceAssign(Fill(size, 0xFF), 0, |op|, op), |op|, s.idx + 1);
      ChainGrows(size, s, chain, op);
    }
  }

  // ---------------------------------------------------------------------------
  // Decoding what was placed

  /** The decoder's view of the corrected layout: the markers are opcodes, the
      page size leaves room, and the macro pages of the profile's layout row are
      pages the reader accepts. */
  predicate Setting(mc: MacroControl, g: Geometry, layout: seq<seq<int>>, pi: nat, size: nat)
  {
    && IsOp(mc, mc.nextPage) && IsOp(mc, mc.macroEnd) && mc.macroEnd != mc.nextPage
    && g.pageSize == size && size >= 16 && pi < |layout|
    && forall k :: 1 <= k < |layout[pi]| ==> g.numProfiles + 1 <= layout[pi][k] <= g.numPages
  }

  /** The device holds macro page `k` of `f` at `layout[pi][k]`. */
  predicate Stored(read: int -> seq<byte>, layout: seq<seq<int>>, pi: nat, f: Packer)
    requires pi < |layout|
  {
    forall k :: 1 <= k <= f.idx && k < |layout[pi]| ==> read(layout[pi][k]) == PageOf(f, k)
  }

  /** The instructions a packed element stands for are well formed and fit an
      empty page. */
  predicate Elements(mc: MacroControl, size: nat, ops: seq<seq<byte>>)
  {
    && Small(size, ops)
    && forall i :: 0 <= i < |ops| ==> AllWellFormed(mc, Split(ops[i]))
  }

  /** A well-formed instruction at the cursor is emitted whole. */
  lemma FetchOp(mc: MacroControl, data: seq<byte>, pos: nat, x: seq<byte>)
    requires WellFormedOp(mc, x) && pos + |x| <= |data| && data[pos..pos + |x|] == x
    ensures Fetch(mc, data, pos) == Emit(x, |x|)
  {
    assert data[pos] == x[0];
  }

  /** An element at the cursor is decoded as the instructions it splits into,
      and the cursor moves past it to `next`. */
  lemma EmitElement(mc: MacroControl, g: Geometry, read: int -> seq<byte>,
                    acc: seq<seq<byte>>, data: seq<byte>, pos: nat, e: seq<byte>, next: nat, fuel: nat)
    requires AllWellFormed(mc, Split(e)) && next == pos + |e| <= |data| && data[pos..next] == e
    ensures DecodeFrom(mc, g, read, acc, data, pos, fuel)
         == DecodeFrom(mc, g, read, acc + Split(e), data, next, fuel)
  {
    if |e| == 6 {
      var a, b := e[..3], e[3..];
      assert WellFormedOp(mc, Split(e)[0]) && WellFormedOp(mc, Split(e)[1]);
      assert data[pos..pos + 3] == a && data[pos + 3..pos + 6] == b;
      FetchOp(mc, data, pos, a);
      FetchOp(mc, data, pos + 3, b);
      assert acc + [a] + [b] == acc + Split(e);
    } else {
      assert WellFormedOp(mc, Split(e)[0]);
      FetchOp(mc, data, pos, e);
    }
  }

  /** The end marker at the cursor ends the macro. */
  lemma EndAt(mc: MacroControl, g: Geometry, read: int -> seq<byte>,
              acc: seq<seq<byte>>, data: seq<byte>, pos: nat, fuel: nat)
    requires IsOp(mc, mc.macroEnd) && mc.macroEnd != mc.nextPage
    requires pos < |data| && data[pos] == mc.macroEnd
    ensures DecodeFrom(mc, g, read, acc, data, pos, fuel) == Ok(acc)
  {
    assert Fetch(mc, data, pos) == End;
  }

  /** Where the corrected loop put element `e` when it went from `a` to `b`,
      as seen in the final state `f`: `e` ends at the cursor of `b`; it follows
      the cursor of `a` on the same page, or starts the next page and a chain
      record to that page sits at the cursor of `a`. */
  predicate Landed(mc: MacroControl, layout: seq<seq<int>>, pi: nat, size: nat, f: Packer,
                   a: Packer, b: Packer, e: seq<byte>)
  {
    && Open(size, b) && a.idx <= b.idx <= f.idx && |e| <= b.pos <= |PageOf(f, b.idx)|
    && PageOf(f, b.idx)[b.pos - |e|..b.pos] == e
    && (b.idx == a.idx ==> b.pos == a.pos + |e|)
    && (b.idx != a.idx ==>
          && b.idx == a.idx + 1 && b.pos == |e|
          && pi < |layout| && a.idx + 1 < |layout[pi]| && 0 <= layout[pi][a.idx + 1] < 0x1_0000
          && a.pos + 5 <= |PageOf(f, a.idx)|
          && PageOf(f, a.idx)[a.pos..a.pos + 5] == ChainRecord(mc, layout[pi][a.idx + 1]).value)
  }

  /** The element the corrected loop places first, seen in the final state `f`. */
  lemma Land(mc: MacroControl, layout: seq<seq<int>>, pi: nat, size: nat, s: Packer,
             e: seq<byte>, rest: seq<seq<byte>>, f: Packer) returns (s': Packer)
    requires Open(size, s) && 1 <= |e| && |e| + 12 <= size && Small(size, rest)
    requires PlaceOps(mc, layout, pi, size, Corrected, s, [e] + rest).Ok?
    requires Open(size, f) && Grows(PlaceOps(mc, layout, pi, size, Corrected, s, [e] + rest).value, f)
    ensures PlaceOps(mc, layout, pi, size, Corrected, s, [e] + rest)
            == PlaceOps(mc, layout, pi, size, Corrected, s', rest)
    ensures Open(size, s') && Grows(s', f)
    ensures Landed(mc, layout, pi, size, f, s, s', e)
  {
    s' := Step(mc, layout, pi, size, s, e, rest);
    var t := PlaceOps(mc, layout, pi, size, Corrected, s', rest).value;
    PlaceGrows(mc, layout, pi, size, s', rest);
    GrowsTrans(s', t, f);
    assert PageOf(f, s'.idx)[..s'.pos][s'.pos - |e|..] == PageOf(f, s'.idx)[s'.pos - |e|..s'.pos];
    assert PageOf(s', s'.idx) == s'.page;
    if s'.idx != s.idx {
      assert PageOf(f, s.idx) == PageOf(s', s.idx) by {
        assert f.done[..|s'.done|][s.idx - 1] == f.done[s.idx - 1];
      }
    }
  }

  /** Where every element of `xs` landed, from the state `s` the corrected loop
      starts in: element `j` went from `states[j]` to `states[j + 1]`. */
  lemma {:induction false} Landings(mc: MacroControl, layout: seq<seq<int>>, pi: nat, size: nat,
                                    s: Packer, xs: seq<seq<byte>>, f: Packer) returns (states: seq<Packer>)
    requires Open(size, s) && Small(size, xs)
    requires PlaceOps(mc, layout, pi, size, Corrected, s, xs).Ok?
    requires Open(size, f) && Grows(PlaceOps(mc, layout, pi, size, Corrected, s, xs).value, f)
    ensures |states| == |xs| + 1 && states[0] == s
    ensures forall j :: 0 <= j < |xs| ==> Landed(mc, layout, pi, size, f, states[j], states[j + 1], xs[j])
    decreases |xs|
  {
    if xs == [] {
      states := [s];
    } else {
      var e, more := xs[0], xs[1..];
      assert xs == [e] + more;
      assert Small(size, more) by {
        forall i | 0 <= i < |more|
          ensures 1 <= |more[i]| && |more[i]| + 12 <= size
        {
          assert more[i] == xs[i + 1];
        }
      }
      var s' := Land(mc, layout, pi, size, s, e, more, f);
      var tail := Landings(mc, layout, pi, size, s', more, f);
      states := [s] + tail;
      forall j | 0 <= j < |xs|
        ensures Landed(mc, layout, pi, size, f, states[j], states[j + 1], xs[j])
      {
        if j > 0 {
          assert states[j] == tail[j - 1] && states[j + 1] == tail[j] && xs[j] == more[j - 1];
        }
      }
    }
  }

  /** A chain record to offset 0 of `next` sends the decoder to the start of
      that page, `d`, one hop spent. */
  lemma Hop(mc: MacroControl, g: Geometry, read: int -> seq<byte>, acc: seq<seq<byte>>,
            data: seq<byte>, pos: nat, next: int, fuel: nat, d: seq<byte>, at: nat, fuel': nat)
    requires IsOp(mc, mc.nextPage) && 0 <= next < 0x1_0000 && InMacroPages(g, next, 0)
    requires pos + 5 <= |data| && data[pos..pos + 5] == ChainRecord(mc, next).value
    requires d == read(next) && at == 0 && fuel == fuel' + 1
    ensures DecodeFrom(mc, g, read, acc, data, pos, fuel) == DecodeFrom(mc, g, read, acc, d, at, fuel')
  {
    var chain := ChainRecord(mc, next).value;
    var w := data[pos..pos + 5];
    assert w == chain;
    assert data[pos + 1..pos + 3] == [w[1], w[2]] == chain[1..3];
    assert data[pos + 3..pos + 5] == [w[3], w[4]] == chain[3..5];
    assert Fetch(mc, data, pos) == Chain(next, 0);
    ChainToPageStart(mc, g, read, acc, data, pos, fuel', next);
  }

  /** How the decoder gets from cursor `p0` of `d0` to an element `e` that ends
      at cursor `p1` of `d1`: on the same page right after `p0`, or (`hop`)
      through a chain record at `p0` to the start of page `next`. */
  predicate Passage(mc: MacroControl, g: Geometry, read: int -> seq<byte>, d0: seq<byte>, p0: nat,
                    d1: seq<byte>, p1: nat, e: seq<byte>, next: int, hop: bool)
  {
    && |e| <= p1 <= |d1| && d1[p1 - |e|..p1] == e
    && (!hop ==> d1 == d0 && p1 == p0 + |e|)
    && (hop ==>
          && p1 == |e| && 0 <= next < 0x1_0000 && InMacroPages(g, next, 0) && d1 == read(next)
          && p0 + 5 <= |d0| && d0[p0..p0 + 5] == ChainRecord(mc, next).value)
  }

  /** The passage from `a` to `b` in the final state of the packer, as the
      decoder sees it through `read`. */
  lemma PassageOf(mc: MacroControl, g: Geometry, read: int -> seq<byte>, layout: seq<seq<int>>,
                  pi: nat, size: nat, f: Packer, a: Packer, b: Packer, e: seq<byte>) returns (next: int)
    requires Setting(mc, g, layout, pi, size) && Stored(read, layout, pi, f)
    requires Landed(mc, layout, pi, size, f, a, b, e)
    ensures Passage(mc, g, read, PageOf(f, a.idx), a.pos, PageOf(f, b.idx), b.pos, e, next, b.idx != a.idx)
  {
    next := if b.idx != a.idx then layout[pi][a.idx + 1] else 0;
  }

  /** The decoder follows a passage: it reaches the start of the element, one
      hop spent when the passage goes through a chain record. */
  lemma Cross(mc: MacroControl, g: Geometry, read: int -> seq<byte>, d0: seq<byte>, p0: nat,
              d1: seq<byte>, p1: nat, e: seq<byte>, next: int, hop: bool,
              acc: seq<seq<byte>>, fuel: nat, fuel': nat)
    requires IsOp(mc, mc.nextPage) && Passage(mc, g, read, d0, p0, d1, p1, e, next, hop)
    requires fuel == fuel' + (if hop then 1 else 0)
    ensures DecodeFrom(mc, g, read, acc, d0, p0, fuel) == DecodeFrom(mc, g, read, acc, d1, p1 - |e|, fuel')
  {
    if hop {
      assert fuel == fuel' + 1 && p1 - |e| == 0;
      Hop(mc, g, read, acc, d0, p0, next, fuel, d1, p1 - |e|, fuel');
    } else {
      assert d1 == d0 && p1 - |e| == p0 && fuel' == fuel;
    }
  }

  /** The end marker at the end of a passage ends the decoding. */
  lemma EndPassage(mc: MacroControl, g: Geometry, read: int -> seq<byte>, d0: seq<byte>, p0: nat,
                   d1: seq<byte>, p1: nat, next: int, hop: bool, acc: seq<seq<byte>>, fuel: nat, fuel': nat)
    requires IsOp(mc, mc.nextPage) && IsOp(mc, mc.macroEnd) && mc.macroEnd != mc.nextPage
    requires Passage(mc, g, read, d0, p0, d1, p1, [mc.macroEnd], next, hop)
    requires fuel == fuel' + (if hop then 1 else 0)
    ensures DecodeFrom(mc, g, read, acc, d0, p0, fuel) == Ok(acc)
  {
    Cross(mc, g, read, d0, p0, d1, p1, [mc.macroEnd], next, hop, acc, fuel, fuel');
    EndBefore(mc, g, read, acc, d1, p1, fuel');
  }

  /** The end marker just before cursor `p` ends the decoding started there. */
  lemma EndBefore(mc: MacroControl, g: Geometry, read: int -> seq<byte>,
                  acc: seq<seq<byte>>, d: seq<byte>, p: nat, fuel: nat)
    requires IsOp(mc, mc.macroEnd) && mc.macroEnd != mc.nextPage
    requires |[mc.macroEnd]| <= p <= |d| && d[p - |[mc.macroEnd]|..p] == [mc.macroEnd]
    ensures DecodeFrom(mc, g, read, acc, d, p - |[mc.macroEnd]|, fuel) == Ok(acc)
  {
    assert d[p - 1] == d[p - 1..p][0];
    EndAt(mc, g, read, acc, d, p - 1, fuel);
  }

  /** Decoding from the start of a passage reads the element at its end, then
      goes on from there. */
  lemma ElementPassage(mc: MacroControl, g: Geometry, read: int -> seq<byte>, d0: seq<byte>, p0: nat,
                       d1: seq<byte>, p1: nat, e: seq<byte>, next: int, hop: bool,
                       acc: seq<seq<byte>>, fuel: nat, fuel': nat)
    requires IsOp(mc, mc.nextPage) && Passage(mc, g, read, d0, p0, d1, p1, e, next, hop)
    requires AllWellFormed(mc, Split(e)) && fuel == fuel' + (if hop then 1 else 0)
    ensures DecodeFrom(mc, g, read, acc, d0, p0, fuel) == DecodeFrom(mc, g, read, acc + Split(e), d1, p1, fuel')
  {
    Cross(mc, g, read, d0, p0, d1, p1, e, next, hop, acc, fuel, fuel');
    EmitAt(mc, g, read, acc, d1, p1, e, fuel');
  }

  /** A well-formed element just before cursor `p` is read whole, leaving the
      decoder at `p`. */
  lemma EmitAt(mc: MacroControl, g: Geometry, read: int -> seq<byte>,
               acc: seq<seq<byte>>, d: seq<byte>, p: nat, e: seq<byte>, fuel: nat)
    requires AllWellFormed(mc, Split(e)) && |e| <= p <= |d| && d[p - |e|..p] == e
    ensures DecodeFrom(mc, g, read, acc, d, p - |e|, fuel) == DecodeFrom(mc, g, read, acc + Split(e), d, p, fuel)
  {
    EmitElement(mc, g, read, acc, d, p - |e|, e, p, fuel);
  }

  /** The end marker landed from `a` ends the decoding started at the cursor of
      `a`. */
  lemma EndLanded(mc: MacroControl, g: Geometry, read: int -> seq<byte>,
                  layout: seq<seq<int>>, pi: nat, size: nat, f: Packer, a: Packer, b: Packer,
                  acc: seq<seq<byte>>, fuel: nat)
    requires Setting(mc, g, layout, pi, size) && Stored(read, layout, pi, f)
    requires Landed(mc, layout, pi, size, f, a, b, [mc.macroEnd]) && fuel + a.idx >= f.idx
    ensures DecodeFrom(mc, g, read, acc, PageOf(f, a.idx), a.pos, fuel) == Ok(acc)
  {
    var next := PassageOf(mc, g, read, layout, pi, size, f, a, b, [mc.macroEnd]);
    var fuel': nat := fuel - (b.idx - a.idx);
    EndPassage(mc, g, read, PageOf(f, a.idx), a.pos, PageOf(f, b.idx), b.pos, next, b.idx != a.idx,
               acc, fuel, fuel');
  }

  /** Decoding from the cursor of `a` reads the element landed from `a`, then
      goes on from the cursor of `b`. */
  lemma ElementLanded(mc: MacroControl, g: Geometry, read: int -> seq<byte>,
                      layout: seq<seq<int>>, pi: nat, size: nat, f: Packer, a: Packer, b: Packer,
                      e: seq<byte>, acc: seq<seq<byte>>, fuel: nat, fuel': nat, r: Result<seq<seq<byte>>>)
    requires Setting(mc, g, layout, pi, size) && Stored(read, layout, pi, f)
    requires Landed(mc, layout, pi, size, f, a, b, e) && AllWellFormed(mc, Split(e))
    requires fuel + a.idx >= f.idx && fuel' == fuel - (b.idx - a.idx)
    requires DecodeFrom(mc, g, read, acc + Split(e), PageOf(f, b.idx), b.pos, fuel') == r
    ensures DecodeFrom(mc, g, read, acc, PageOf(f, a.idx), a.pos, fuel) == r
  {
    var next := PassageOf(mc, g, read, layout, pi, size, f, a, b, e);
    ElementPassage(mc, g, read, PageOf(f, a.idx), a.pos, PageOf(f, b.idx), b.pos, e, next,
                   b.idx != a.idx, acc, fuel, fuel');
  }

  /** Elements `ops[j]` landed from `states[j]` to `states[j + 1]`, and the end
      marker after them. */
  predicate LandedAll(mc: MacroControl, layout: seq<seq<int>>, pi: nat, size: nat, f: Packer,
                      states: seq<Packer>, ops: seq<seq<byte>>)
  {
    && |states| == |ops| + 2
    && (forall j {:trigger ops[j]} :: 0 <= j < |ops| ==>
          Landed(mc, layout, pi, size, f, states[j], states[j + 1], ops[j])
          && AllWellFormed(mc, Split(ops[j])))
    && Landed(mc, layout, pi, size, f, states[|ops|], states[|ops| + 1], [mc.macroEnd])
  }

  /** Elements landed one after the other, the end marker last, decode from
      the cursor of `states[k]` to the instructions of `ops[k..]` after those
      already read. */
  lemma {:induction false} LandedReadBack(mc: MacroControl, g: Geometry, read: int -> seq<byte>,
                                          layout: seq<seq<int>>, pi: nat, size: nat, f: Packer,
                                          states: seq<Packer>, ops: seq<seq<byte>>, k: nat,
                                          acc: seq<seq<byte>>, fuel: nat)
    requires Setting(mc, g, layout, pi, size) && Stored(read, layout, pi, f)
    requires LandedAll(mc, layout, pi, size, f, states, ops) && k <= |ops| && fuel + states[k].idx >= f.idx
    ensures DecodeFrom(mc, g, read, acc, PageOf(f, states[k].idx), states[k].pos, fuel)
         == Ok(acc + Instructions(ops[k..]))
    decreases |ops| - k
  {
    var a, b := states[k], states[k + 1];
    if k == |ops| {
      EndLanded(mc, g, read, layout, pi, size, f, a, b, acc, fuel);
      NoneLeft(acc, ops, k);
    } else {
      var op, more := ops[k], ops[k + 1..];
      LandedAt(mc, layout, pi, size, f, states, ops, k);
      var fuel' := LandedFuel(mc, layout, pi, size, f, a, b, op, fuel);
      LandedReadBack(mc, g, read, layout, pi, size, f, states, ops, k + 1, acc + Split(op), fuel');
      ReadBackStep(mc, g, read, layout, pi, size, f, a, b, op, more, acc, fuel, fuel');
      InstructionsFrom(ops, k);
    }
  }

  /** The landing of element `k`, taken out of `LandedAll`. */
  lemma LandedAt(mc: MacroControl, layout: seq<seq<int>>, pi: nat, size: nat, f: Packer,
                 states: seq<Packer>, ops: seq<seq<byte>>, k: nat)
    requires LandedAll(mc, layout, pi, size, f, states, ops) && k < |ops|
    ensures Landed(mc, layout, pi, size, f, states[k], states[k + 1], ops[k]) && AllWellFormed(mc, Split(ops[k]))
  {
  }

  /** The hops spent on the way from `a` to `b` leave enough for the pages
      after `b`. */
  lemma LandedFuel(mc: MacroControl, layout: seq<seq<int>>, pi: nat, size: nat, f: Packer,
                   a: Packer, b: Packer, e: seq<byte>, fuel: nat) returns (fuel': nat)
    requires Landed(mc, layout, pi, size, f, a, b, e) && fuel + a.idx >= f.idx
    ensures fuel' == fuel - (b.idx - a.idx) && fuel' + b.idx >= f.idx
  {
    fuel' := fuel - (b.idx - a.idx);
  }

  lemma NoneLeft(acc: seq<seq<byte>>, ops: seq<seq<byte>>, k: nat)
    requires k == |ops|
    ensures acc + Instructions(ops[k..]) == acc
  {
    assert ops[k..] == [];
  }

  /** One element read back, and the rest after it. */
  lemma ReadBackStep(mc: MacroControl, g: Geometry, read: int -> seq<byte>,
                     layout: seq<seq<int>>, pi: nat, size: nat, f: Packer, a: Packer, b: Packer,
                     op: seq<byte>, more: seq<seq<byte>>, acc: seq<seq<byte>>, fuel: nat, fuel': nat)
    requires Setting(mc, g, layout, pi, size) && Stored(read, layout, pi, f)
    requires Landed(mc, layout, pi, size, f, a, b, op) && AllWellFormed(mc, Split(op))
    requires fuel + a.idx >= f.idx && fuel' == fuel - (b.idx - a.idx)
    requires DecodeFrom(mc, g, read, acc + Split(op), PageOf(f, b.idx), b.pos, fuel')
          == Ok(acc + Split(op) + Instructions(more))
    ensures DecodeFrom(mc, g, read, acc, PageOf(f, a.idx), a.pos, fuel) == Ok(acc + (Split(op) + Instructions(more)))
  {
    ElementLanded(mc, g, read, layout, pi, size, f, a, b, op, acc, fuel, fuel',
                  Ok(acc + Split(op) + Instructions(more)));
    assert acc + Split(op) + Instructions(more) == acc + (Split(op) + Instructions(more));
  }

  lemma InstructionsFrom(ops: seq<seq<byte>>, k: nat)
    requires k < |ops|
    ensures Instructions(ops[k..]) == Split(ops[k]) + Instructions(ops[k + 1..])
  {
    InstructionsCons(ops[k], ops[k + 1..]);
    assert ops[k..] == [ops[k]] + ops[k + 1..];
  }

  /** A macro packed by the corrected loop, end marker included, decodes from
      its starting cursor to its instructions after those already read. */
  lemma PlacedReadBack(mc: MacroControl, g: Geometry, read: int -> seq<byte>,
                       layout: seq<seq<int>>, pi: nat, size: nat, s: Packer,
                       ops: seq<seq<byte>>, f: Packer, acc: seq<seq<byte>>, fuel: nat)
    requires Setting(mc, g, layout, pi, size) && Open(size, s) && Elements(mc, size, ops)
    requires PlaceOps(mc, layout, pi, size, Corrected, s, ops + [[mc.macroEnd]]).Ok?
    requires Open(size, f) && Grows(PlaceOps(mc, layout, pi, size, Corrected, s, ops + [[mc.macroEnd]]).value, f)
    requires Stored(read, layout, pi, f) && fuel + s.idx >= f.idx
    ensures DecodeFrom(mc, g, read, acc, PageOf(f, s.idx), s.pos, fuel) == Ok(acc + Instructions(ops))
  {
    var xs := ops + [[mc.macroEnd]];
    assert Small(size, xs) by {
      forall i | 0 <= i < |xs|
        ensures 1 <= |xs[i]| && |xs[i]| + 12 <= size
      {
        if i < |ops| {
          assert xs[i] == ops[i];
        }
      }
    }
    var states := Landings(mc, layout, pi, size, s, xs, f);
    forall j | 0 <= j < |ops|
      ensures Landed(mc, layout, pi, size, f, states[j], states[j + 1], ops[j])
              && AllWellFormed(mc, Split(ops[j]))
    {
      assert xs[j] == ops[j];
    }
    assert xs[|ops|] == [mc.macroEnd];
    assert LandedAll(mc, layout, pi, size, f, states, ops);
    LandedReadBack(mc, g, read, layout, pi, size, f, states, ops, 0, acc, fuel);
    assert ops[0..] == ops;
  }

  // ---------------------------------------------------------------------------
  // Macros packed one after the other

  /** What the corrected outer loop places for one macro is small enough for an
      empty page, end marker included. */
  lemma TerminatedSmall(mc: MacroControl, size: nat, ops: seq<seq<byte>>)
    requires Small(size, ops) && size >= 13
    ensures Small(size, Terminated(mc, Corrected, ops))
  {
    var xs := Terminated(mc, Corrected, ops);
    assert xs == ops + [[mc.macroEnd]];
    forall i | 0 <= i < |xs|
      ensures 1 <= |xs[i]| && |xs[i]| + 12 <= size
    {
      if i < |ops| {
        assert xs[i] == ops[i];
      }
    }
  }

  /** What one pass of the corrected outer loop did from `s` to `t` for macro
      `m`: the reference to the page and cursor the macro starts at fills its
      four-byte slot, and the macro's instructions, end marker included, are
      placed from there, writing only forward. */
  predicate Packed(mc: MacroControl, layout: seq<seq<int>>, pi: nat, size: nat, s: Packer, m: MacroRec, t: Packer)
  {
    && pi < |layout| && s.idx < |layout[pi]| && Reference(Corrected, layout[pi][s.idx], s.pos).Ok?
    && m.at + 4 <= |t.first| && t.first[m.at..m.at + 4] == Reference(Corrected, layout[pi][s.idx], s.pos).value
    && PlaceOps(mc, layout, pi, size, Corrected, s.(first := t.first), Terminated(mc, Corrected, m.ops)) == Ok(t)
    && Open(size, t) && Grows(s, t)
  }

  /** One pass of the corrected outer loop does what `Packed` says, and leaves the
      rest of the profile page as it is. */
  lemma PackOneStep(mc: MacroControl, layout: seq<seq<int>>, pi: nat, size: nat, s: Packer, m: MacroRec)
    returns (t: Packer)
    requires Open(size, s) && Small(size, m.ops) && size >= 13 && m.at + 4 <= |s.first|
    requires PackOne(mc, layout, pi, size, Corrected, s, m).Ok?
    ensures PackOne(mc, layout, pi, size, Corrected, s, m) == Ok(t)
    ensures Packed(mc, layout, pi, size, s, m, t)
    ensures |t.first| == |s.first| && t.first[..m.at] == s.first[..m.at]
  {
    var ref := Reference(Corrected, layout[pi][s.idx], s.pos).value;
    var s1 := s.(first := SliceAssign(s.first, m.at, m.at + 4, ref));
    TerminatedSmall(mc, size, m.ops);
    PlaceGrows(mc, layout, pi, size, s1, Terminated(mc, Corrected, m.ops));
    t := PlaceOps(mc, layout, pi, size, Corrected, s1, Terminated(mc, Corrected, m.ops)).value;
    assert s.(first := t.first) == s1;
  }

  /** A reference to cursor `pos` of page `page` sends the decoder there. */
  lemma RefDecode(mc: MacroControl, g: Geometry, read: int -> seq<byte>, ref: seq<byte>,
                  page: int, pos: nat, fuel: nat)
    requires |ref| == 4 && ProfileCodec.BEValue(ref) == page * 0x1_0000 + pos && 0 <= page && pos < 0x1_0000
    requires InMacroPages(g, page, pos) && pos <= |read(page)|
    ensures Decode(mc, g, read, ReadBE32(ref), fuel) == DecodeFrom(mc, g, read, [], read(page), pos, fuel)
  {
    ProfileCodec.BEValue4(ref);
    var offset := ReadBE32(ref);
    assert offset / 0x1_0000 == page && offset % 0x1_0000 == pos;
    DecodeShift(mc, g, read, [], read(page), pos, 0, fuel);
  }

  /** The macro one pass of the corrected outer loop packs reads back, through
      the reference it fills in, as its instructions: whatever later passes
      write, as long as they only add to the pages. */
  lemma PackOneReadBack(mc: MacroControl, g: Geometry, read: int -> seq<byte>, layout: seq<seq<int>>,
                        pi: nat, size: nat, s: Packer, m: MacroRec, t: Packer, f: Packer, fuel: nat)
    requires Setting(mc, g, layout, pi, size) && Open(size, s) && Elements(mc, size, m.ops)
    requires Packed(mc, layout, pi, size, s, m, t)
    requires Open(size, f) && Grows(t, f) && Stored(read, layout, pi, f) && fuel + s.idx >= f.idx
    ensures Decode(mc, g, read, ReadBE32(t.first[m.at..m.at + 4]), fuel) == Ok(Instructions(m.ops))
  {
    var page := layout[pi][s.idx];
    var ref := Reference(Corrected, page, s.pos).value;
    GrowsTrans(s, t, f);
    assert read(page) == PageOf(f, s.idx);
    RefDecode(mc, g, read, ref, page, s.pos, fuel);
    var s1 := s.(first := t.first);
    assert Terminated(mc, Corrected, m.ops) == m.ops + [[mc.macroEnd]];
    PlacedReadBack(mc, g, read, layout, pi, size, s1, m.ops, f, [], fuel);
    assert [] + Instructions(m.ops) == Instructions(m.ops);
  }

  /** The recorded macros occupy four-byte slots of a profile page of `n` bytes,
      in increasing order and without overlap. */
  predicate Slots(n: nat, recs: seq<MacroRec>)
  {
    && (forall i :: 0 <= i < |recs| ==> recs[i].at + 4 <= n)
    && (forall i, j :: 0 <= i < j < |recs| ==> recs[i].at + 4 <= recs[j].at)
  }

  /** The corrected outer loop only writes macro pages at or after the cursor
      and the slots of the macros it packs: the profile page keeps its size and
      every byte before the first slot. */
  lemma {:induction false} PackGrows(mc: MacroControl, layout: seq<seq<int>>, pi: nat, size: nat,
                                     s: Packer, recs: seq<MacroRec>, n: nat, f: Packer)
    requires Open(size, s) && size >= 13 && Slots(|s.first|, recs)
    requires forall i :: 0 <= i < |recs| ==> Small(size, recs[i].ops) && n <= recs[i].at
    requires n <= |s.first| && PackFrom(mc, layout, pi, size, Corrected, s, recs) == Ok(f)
    ensures Open(size, f) && Grows(s, f) && |f.first| == |s.first| && f.first[..n] == s.first[..n]
    decreases |recs|
  {
    if recs != [] {
      var m, more := recs[0], recs[1..];
      var t := PackOneStep(mc, layout, pi, size, s, m);
      assert Slots(|t.first|, more) by {
        forall i | 0 <= i < |more| ensures more[i].at + 4 <= |t.first| {
          assert more[i] == recs[i + 1];
        }
        forall i, j | 0 <= i < j < |more| ensures more[i].at + 4 <= more[j].at {
          assert more[i] == recs[i + 1] && more[j] == recs[j + 1];
        }
      }
      forall i | 0 <= i < |more| ensures Small(size, more[i].ops) && n <= more[i].at {
        assert more[i] == recs[i + 1];
      }
      PackGrows(mc, layout, pi, size, t, more, n, f);
      GrowsTrans(s, t, f);
      assert t.first[..m.at][..n] == t.first[..n];
    }
  }

  /** One pass of the corrected outer loop from `s`, seen from the passes after
      it: they start from `t` with the slots of the other macros, and leave the
      slot just filled as it is. */
  lemma PackRest(mc: MacroControl, layout: seq<seq<int>>, pi: nat, size: nat, s: Packer,
                 recs: seq<MacroRec>, f: Packer) returns (t: Packer)
    requires Open(size, s) && size >= 13 && Slots(|s.first|, recs) && recs != []
    requires forall k :: 0 <= k < |recs| ==> Small(size, recs[k].ops)
    requires PackFrom(mc, layout, pi, size, Corrected, s, recs) == Ok(f)
    ensures Packed(mc, layout, pi, size, s, recs[0], t)
    ensures PackFrom(mc, layout, pi, size, Corrected, t, recs[1..]) == Ok(f)
    ensures Open(size, t) && s.idx <= t.idx && |t.first| == |s.first| && Slots(|t.first|, recs[1..])
    ensures forall k :: 0 <= k < |recs[1..]| ==> Small(size, recs[1..][k].ops)
    ensures Open(size, f) && Grows(t, f) && |f.first| == |t.first|
    ensures recs[0].at + 4 <= |t.first|
    ensures f.first[recs[0].at..recs[0].at + 4] == t.first[recs[0].at..recs[0].at + 4]
  {
    var m, more := recs[0], recs[1..];
    t := PackOneStep(mc, layout, pi, size, s, m);
    assert Slots(|t.first|, more) by {
      forall k | 0 <= k < |more| ensures more[k].at + 4 <= |t.first| {
        assert more[k] == recs[k + 1];
      }
      forall k, j | 0 <= k < j < |more| ensures more[k].at + 4 <= more[j].at {
        assert more[k] == recs[k + 1] && more[j] == recs[j + 1];
      }
    }
    forall k | 0 <= k < |more| ensures Small(size, more[k].ops) && m.at + 4 <= more[k].at {
      assert more[k] == recs[k + 1];
    }
    PackGrows(mc, layout, pi, size, t, more, m.at + 4, f);
    assert f.first[..m.at + 4][m.at..] == f.first[m.at..m.at + 4];
    assert t.first[..m.at + 4][m.at..] == t.first[m.at..m.at + 4];
  }

  /** The states the corrected outer loop packs macro `i` from and to, starting
      from `s` and ending in `f`; what it leaves in the slot of the macro is still
      there at the end. */
  lemma {:induction false} PackAt(mc: MacroControl, layout: seq<seq<int>>, pi: nat, size: nat,
                                  s: Packer, recs: seq<MacroRec>, f: Packer, i: nat, m: MacroRec)
    returns (a: Packer, b: Packer)
    requires Open(size, s) && size >= 13 && Slots(|s.first|, recs) && i < |recs| && m == recs[i]
    requires forall k :: 0 <= k < |recs| ==> Small(size, recs[k].ops)
    requires PackFrom(mc, layout, pi, size, Corrected, s, recs) == Ok(f)
    ensures Packed(mc, layout, pi, size, a, m, b)
    ensures Open(size, a) && s.idx <= a.idx && |a.first| == |s.first| && |b.first| == |s.first|
    ensures Open(size, f) && Grows(b, f) && |f.first| == |s.first| && m.at + 4 <= |s.first|
    ensures f.first[m.at..m.at + 4] == b.first[m.at..m.at + 4]
    decreases i
  {
    var t := PackRest(mc, layout, pi, size, s, recs, f);
    if i == 0 {
      a, b := s, t;
    } else {
      assert m == recs[1..][i - 1];
      a, b := PackAt(mc, layout, pi, size, t, recs[1..], f, i - 1, m);
    }
  }

  /** The macro packed from `a` to `b` reads back through its slot of the final
      profile page. */
  lemma SlotReadBack(mc: MacroControl, g: Geometry, read: int -> seq<byte>, layout: seq<seq<int>>,
                     pi: nat, size: nat, a: Packer, m: MacroRec, b: Packer, f: Packer, fuel: nat)
    requires Setting(mc, g, layout, pi, size) && Open(size, a) && Elements(mc, size, m.ops)
    requires Packed(mc, layout, pi, size, a, m, b) && |b.first| == |f.first|
    requires f.first[m.at..m.at + 4] == b.first[m.at..m.at + 4]
    requires Open(size, f) && Grows(b, f) && Stored(read, layout, pi, f) && fuel + a.idx >= f.idx
    ensures Decode(mc, g, read, ReadBE32(f.first[m.at..m.at + 4]), fuel) == Ok(Instructions(m.ops))
  {
    PackOneReadBack(mc, g, read, layout, pi, size, a, m, b, f, fuel);
  }

  /** The pages `Pack` returns are the profile page and the macro pages of the
      final state of the corrected outer loop. */
  lemma PackPages(mc: MacroControl, layout: seq<seq<int>>, pi: nat, size: nat, first: seq<byte>,
                  recs: seq<MacroRec>, pages: seq<seq<byte>>) returns (f: Packer)
    requires Pack(mc, layout, pi, size, Corrected, first, recs) == Ok(pages)
    ensures PackFrom(mc, layout, pi, size, Corrected, Packer(first, [], Fill(size, 0xFF), 0, 1), recs) == Ok(f)
    ensures pages == [f.first] + f.done + [f.page] && pages[0] == f.first && |pages| == |f.done| + 2
  {
    f := PackFrom(mc, layout, pi, size, Corrected, Packer(first, [], Fill(size, 0xFF), 0, 1), recs).value;
  }

  /** Writing the macro pages of `pages` to the layout row stores the final state. */
  lemma StoredPages(read: int -> seq<byte>, layout: seq<seq<int>>, pi: nat, f: Packer, pages: seq<seq<byte>>)
    requires pi < |layout| && pages == [f.first] + f.done + [f.page] && |f.done| == f.idx - 1
    requires forall k :: 1 <= k < |pages| && k < |layout[pi]| ==> read(layout[pi][k]) == pages[k]
    ensures Stored(read, layout, pi, f)
  {
    forall k | 1 <= k <= f.idx && k < |layout[pi]| ensures read(layout[pi][k]) == PageOf(f, k) {
      assert pages[k] == PageOf(f, k);
    }
  }

  /** Every page the corrected packing returns after the profile page has the
      page size, so the page writer accepts each of them. */
  lemma PackedPagesFit(mc: MacroControl, layout: seq<seq<int>>, pi: nat, size: nat, first: seq<byte>,
                       recs: seq<MacroRec>, pages: seq<seq<byte>>)
    requires size >= 13 && Slots(|first|, recs)
    requires forall k :: 0 <= k < |recs| ==> Small(size, recs[k].ops)
    requires Pack(mc, layout, pi, size, Corrected, first, recs) == Ok(pages)
    ensures |pages| >= 2 && |pages[0]| == |first|
    ensures forall k :: 1 <= k < |pages| ==> |pages[k]| == size
  {
    var s := Packer(first, [], Fill(size, 0xFF), 0, 1);
    var f := PackPages(mc, layout, pi, size, first, recs, pages);
    PackGrows(mc, layout, pi, size, s, recs, 0, f);
    forall k | 1 <= k < |pages| ensures |pages[k]| == size {
      if k <= |f.done| {
        assert pages[k] == f.done[k - 1];
      } else {
        assert pages[k] == f.page;
      }
    }
  }

  /** The headline property of the corrected packing: once the pages it returns
      are written to the layout row of the profile, the reference in the slot of
      every recorded macro decodes to that macro's instructions. */
  lemma PackedMacrosReadBack(mc: MacroControl, g: Geometry, read: int -> seq<byte>,
                             layout: seq<seq<int>>, pi: nat, size: nat, first: seq<byte>,
                             recs: seq<MacroRec>, pages: seq<seq<byte>>, fuel: nat, i: nat)
    requires Setting(mc, g, layout, pi, size) && Slots(|first|, recs)
    requires forall k :: 0 <= k < |recs| ==> Elements(mc, size, recs[k].ops)
    requires Pack(mc, layout, pi, size, Corrected, first, recs) == Ok(pages)
    requires forall k :: 1 <= k < |pages| && k < |layout[pi]| ==> read(layout[pi][k]) == pages[k]
    requires fuel + 2 >= |pages| && i < |recs|
    ensures |pages| >= 2 && |pages[0]| == |first|
    ensures Decode(mc, g, read, ReadBE32(pages[0][recs[i].at..recs[i].at + 4]), fuel)
         == Ok(Instructions(recs[i].ops))
  {
    var s := Packer(first, [], Fill(size, 0xFF), 0, 1);
    var f := PackPages(mc, layout, pi, size, first, recs, pages);
    var m := recs[i];
    forall k | 0 <= k < |recs| ensures Small(size, recs[k].ops) {
      assert Elements(mc, size, recs[k].ops);
    }
    var a, b := PackAt(mc, layout, pi, size, s, recs, f, i, m);
    StoredPages(read, layout, pi, f, pages);
    SlotReadBack(mc, g, read, layout, pi, size, a, m, b, f, fuel);
  }
}
