/** Feature 0x8100 (onboard profiles) of libs/FeatureOnboardProfile.py: the
    capability and directory parse of the constructor, the chunked memory-page
    reads and writes, the page-layout planner and the setters that edit the
    directory on page 0. The mouse is an abstract memory that answers the
    feature's requests. */
module OnboardProfile {
  import opened Wrappers
  import opened Bytes
  import opened Utils

  // ---------------------------------------------------------------------------
  // The device side of feature 0x8100

  /** The function numbers of feature 0x8100 the class uses. */
  const GetInfo: nat := 0
  const SetCurrent: nat := 3
  const GetCurrent: nat := 4
  const MemRead: nat := 5
  const MemWriteStart: nat := 6
  const MemWrite: nat := 7
  const MemWriteEnd: nat := 8

  /** One request of feature 0x8100: the function number and its parameters. */
  datatype Request = Request(fn: nat, params: seq<byte>)

  /** What the mouse holds and has been sent: its memory pages, the active
      profile, the page and bytes of the write in progress, and every request
      received, in order. */
  datatype Mouse = Mouse(pages: map<int, seq<byte>>, active: byte, target: int,
                         staged: seq<byte>, sent: seq<Request>)

  /** The four header bytes of a long reply, as in the sample reply of a G502:
      report 0x11, device 0xFF, feature index 0x0C, function and software id. */
  function Header(fn: nat): (h: seq<byte>)
    ensures |h| == 4
  {
    [0x11, 0xFF, 0x0C, (fn % 16) * 16 + 0x0F]
  }

  /** The reply of the mouse to a request; `None` when a read asks for bytes
      the mouse does not hold (an error reply, which the transport drops).
      `info` is the body of the capability reply. */
  function Answer(info: seq<byte>, m: Mouse, fn: nat, params: seq<byte>): (r: Option<seq<byte>>)
  {
    if fn == GetInfo then Some(Header(fn) + info)
    else if fn == GetCurrent then Some(Header(fn) + [0, m.active] + Fill(14, 0))
    else if fn == MemRead then
      if |params| < 4 then None
      else
        var page, off := ReadBE16(params[..2]), ReadBE16(params[2..4]);
        if page in m.pages && off + 16 <= |m.pages[page]| then Some(Header(fn) + m.pages[page][off..off + 16])
        else None
    else Some(Header(fn) + Fill(16, 0))
  }

  /** The state of the mouse after a request: a profile switch, the start of a
      page write, one 16-byte chunk of it, and its commit. */
  function Next(m: Mouse, fn: nat, params: seq<byte>): (m': Mouse)
    ensures m'.sent == m.sent + [Request(fn, params)]
    ensures fn != MemWriteEnd ==> m'.pages == m.pages
    ensures fn == MemWriteEnd ==> m'.pages == m.pages[m.target := m.staged]
  {
    var m := m.(sent := m.sent + [Request(fn, params)]);
    if fn == SetCurrent && |params| >= 2 then m.(active := params[1])
    else if fn == MemWriteStart && |params| >= 2 then m.(target := ReadBE16(params[..2]), staged := [])
    else if fn == MemWrite then m.(staged := m.staged + params)
    else if fn == MemWriteEnd then m.(pages := m.pages[m.target := m.staged])
    else m
  }

  /** The mouse behind `dev.call_feature(Feature.onboard_profile, ...)`, and
      whether the device lists features 0x8100 and 0x8061. */
  class Device {
    const info: seq<byte>
    const onboard: bool
    const extendedRate: bool
    var mouse: Mouse

    constructor(info: seq<byte>, onboard: bool, extendedRate: bool, mouse: Mouse)
      ensures this.info == info && this.onboard == onboard && this.extendedRate == extendedRate
      ensures this.mouse == mouse
    {
      this.info, this.onboard, this.extendedRate := info, onboard, extendedRate;
      this.mouse := mouse;
    }

    /** One request of feature 0x8100 and its reply. */
    method Call(fn: nat, params: seq<byte>) returns (reply: Option<seq<byte>>)
      modifies this
      ensures reply == Answer(info, old(mouse), fn, params)
      ensures mouse == Next(old(mouse), fn, params)
    {
      reply := Answer(info, mouse, fn, params);
      mouse := Next(mouse, fn, params);
    }
  }

  // ---------------------------------------------------------------------------
  // Memory pages

  predicate IsU16(n: int) { 0 <= n < 0x1_0000 }

  /** The request for the 16 bytes at offset `16 * i` of `page`. */
  function ReadRequest(page: u16, i: nat): Request
    requires i * 16 < 0x1_0000
  {
    Request(MemRead, BE16(page) + BE16(i * 16))
  }

  /** The first `n` chunk requests of a page read. */
  function ReadRequests(page: u16, n: nat): (rs: seq<Request>)
    requires n * 16 <= 0x1_0000
    ensures |rs| == n && forall i :: 0 <= i < n ==> rs[i] == ReadRequest(page, i)
  {
    seq(n, i requires 0 <= i < n => ReadRequest(page, i))
  }

  /** The check of `read_memory_page`: the last two bytes are the big-endian
      CRC of the rest. */
  predicate ChecksumOk(d: seq<byte>)
  {
    |d| >= 2 && Crc16(d[..|d| - 2]) == ReadBE16(d[|d| - 2..])
  }

  /** The bytes the mouse holds for `page`; none when it holds no such page. */
  function Held(m: Mouse, page: int): seq<byte>
  {
    if page in m.pages then m.pages[page] else []
  }

  /** `read_memory_page(page, verify)` with pages of `size` bytes: the first
      `size` bytes of the page, read 16 at a time, and the mouse after the chunk
      requests. A page number `struct.pack` refuses sends nothing; the first
      chunk the mouse cannot answer ends the read (indexing the missing reply
      raises). With `verify`, a page whose checksum does not match is refused. */
  function ReadPage(m: Mouse, size: nat, page: int, verify: bool): (r: (Result<seq<byte>>, Mouse))
    requires size % 16 == 0 && 16 <= size <= 0x1_0000
    ensures r.0.Ok? ==> size <= |Held(m, page)| && r.0.value == Held(m, page)[..size]
    ensures r.0.Ok? ==> (verify ==> ChecksumOk(r.0.value))
    ensures r.1 == m.(sent := r.1.sent) && r.1.active == m.active
  {
    if !IsU16(page) then (Err(BadArgument), m)
    else
      var held := Held(m, page);
      if |held| < size then
        ChunksBefore(|held|, size);
        (Err(NoReply), m.(sent := m.sent + ReadRequests(page, |held| / 16 + 1)))
      else
        var m' := m.(sent := m.sent + ReadRequests(page, size / 16));
        if verify && !ChecksumOk(held[..size]) then (Err(ChecksumMismatch), m')
        else (Ok(held[..size]), m')
  }

  /** A read of a page shorter than `size` fails at a chunk of the page. */
  lemma ChunksBefore(n: nat, size: nat)
    requires size % 16 == 0 && n < size
    ensures (n / 16 + 1) * 16 <= size
  {
    assert n / 16 * 16 <= n;
    assert size == size / 16 * 16;
    assert n / 16 < size / 16;
  }

  /** What `write_memory_page(page, data, verify)` stores: with `verify`, the
      last two bytes replaced by the big-endian CRC of the rest. */
  function Stamped(data: seq<byte>, verify: bool): (d: seq<byte>)
    requires |data| >= 2
    ensures |d| == |data|
  {
    if verify then data[..|data| - 2] + BE16(Crc16(data[..|data| - 2])) else data
  }

  /** The requests of one page write: begin (page, offset 0, length), one
      16-byte chunk after the other, and the commit. */
  function WriteRequests(page: u16, d: seq<byte>): seq<Request>
    requires |d| < 0x1_0000
  {
    [Request(MemWriteStart, BE16(page) + BE16(0) + BE16(|d|))] + ChunkRequests(d, |d| / 16)
      + [Request(MemWriteEnd, [0])]
  }

  /** The first `n` chunk writes of `d`. */
  function ChunkRequests(d: seq<byte>, n: nat): (rs: seq<Request>)
    requires n * 16 <= |d|
    ensures |rs| == n && forall i :: 0 <= i < n ==> rs[i] == Request(MemWrite, d[i * 16..i * 16 + 16])
  {
    seq(n, i requires 0 <= i < n => Request(MemWrite, d[i * 16..i * 16 + 16]))
  }

  /** `write_memory_page(page, data, verify)`: a page of the wrong size is
      refused before anything is sent; otherwise the stamped data replaces the
      page and the requests of the write are sent. */
  function WritePage(m: Mouse, size: nat, page: int, data: seq<byte>, verify: bool): (r: (Outcome, Mouse))
    requires size % 16 == 0 && 16 <= size < 0x1_0000
  {
    if |data| != size then (Fail(WrongPageSize), m)
    else if !IsU16(page) then (Fail(BadArgument), m)
    else
      var d := Stamped(data, verify);
      (Pass, m.(pages := m.pages[page := d], target := page, staged := d,
                sent := m.sent + WriteRequests(page, d)))
  }

  /** A page written with `verify` passes the check of `read_memory_page`, and
      its body is the body that was written. */
  lemma StampedVerifies(data: seq<byte>)
    requires |data| >= 2
    ensures ChecksumOk(Stamped(data, true))
    ensures Stamped(data, true)[..|data| - 2] == data[..|data| - 2]
  {
    var d := Stamped(data, true);
    assert d[..|d| - 2] == data[..|data| - 2];
    assert d[|d| - 2..] == BE16(Crc16(data[..|data| - 2]));
    BE16RoundTrip(Crc16(data[..|data| - 2]));
  }

  /** Writing a page with `verify` and reading it back with `verify` gives
      back the stamped page: no checksum error, and the same body. */
  lemma ReadAfterWrite(m: Mouse, size: nat, page: int, data: seq<byte>)
    requires size % 16 == 0 && 16 <= size < 0x1_0000
    requires |data| == size && IsU16(page)
    ensures var m' := WritePage(m, size, page, data, true).1;
            ReadPage(m', size, page, true).0 == Ok(Stamped(data, true))
            && ReadPage(m', size, page, true).0.value[..size - 2] == data[..size - 2]
  {
    StampedVerifies(data);
    var d := Stamped(data, true);
    assert d[..size] == d;
  }

  /** A page written with `verify` whose body then changes in one byte fails
      the check of `read_memory_page`. */
  lemma CorruptedPageRefused(m: Mouse, size: nat, page: int, data: seq<byte>, i: nat, b: byte)
    requires size % 16 == 0 && 16 <= size < 0x1_0000
    requires |data| == size && IsU16(page) && i < size - 2 && b != data[i]
    ensures var m' := WritePage(m, size, page, data, true).1;
            var corrupted: seq<byte> := m'.pages[page][i := b];
            var m'' := m'.(pages := m'.pages[page := corrupted]);
            ReadPage(m'', size, page, true).0 == Err(ChecksumMismatch)
  {
    var d := Stamped(data, true);
    var body := data[..size - 2];
    var changed: seq<byte> := d[i := b];
    var other := changed[..size - 2];
    assert d == body + BE16(Crc16(body));
    forall j | 0 <= j < |body| && j != i
      ensures other[j] == body[j]
    {
    }
    AppendedChecksumVerifies(body, other, i);
    assert changed == other + BE16(Crc16(body));
    assert changed[..size] == changed;
  }

  /** The chunks of a page write put together are the page. */
  lemma {:induction false} ChunksMakePage(d: seq<byte>, n: nat)
    requires n * 16 <= |d|
    ensures Concat(ChunkParams(ChunkRequests(d, n))) == d[..n * 16]
  {
    if n > 0 {
      var rs := ChunkRequests(d, n);
      assert rs[..n - 1] == ChunkRequests(d, n - 1);
      assert rs == rs[..n - 1] + [rs[n - 1]];
      ChunkParamsAppend(rs[..n - 1], [rs[n - 1]]);
      ChunksMakePage(d, n - 1);
      ConcatAppend(ChunkParams(rs[..n - 1]), ChunkParams([rs[n - 1]]));
      assert d[..n * 16] == d[..(n - 1) * 16] + d[(n - 1) * 16..n * 16];
    }
  }

  /** The parameters of a list of requests. */
  function ChunkParams(rs: seq<Request>): (ps: seq<seq<byte>>)
    ensures |ps| == |rs| && forall i :: 0 <= i < |rs| ==> ps[i] == rs[i].params
  {
    seq(|rs|, i requires 0 <= i < |rs| => rs[i].params)
  }

  lemma ChunkParamsAppend(a: seq<Request>, b: seq<Request>)
    ensures ChunkParams(a + b) == ChunkParams(a) + ChunkParams(b)
  {
  }

  // ---------------------------------------------------------------------------
  // The page layout

  /** Python's `int(a / b)` for a positive `b`: the quotient truncated toward
      zero. */
  function TruncDiv(a: int, b: int): (q: int)
    requires b > 0
    ensures a >= 0 ==> q == a / b
    ensures a < 0 ==> q == -((-a) / b)
  {
    if a >= 0 then a / b else -((-a) / b)
  }

  /** `list(range(lo, hi))` */
  function Span(lo: int, hi: int): (r: seq<int>)
    ensures |r| == Max(0, hi - lo) && forall i :: 0 <= i < |r| ==> r[i] == lo + i
  {
    if hi <= lo then [] else seq(hi - lo, i => lo + i)
  }

  /** The macro pages per profile of `calc_page_layout`. */
  function PagesPer(profiles: nat, pages: nat): int
    requires profiles > 0
  {
    TruncDiv(pages - profiles - 1, profiles)
  }

  /** Row `i + 1` of the layout: the profile page, then `k` macro pages after
      those of the profiles before it. */
  function LayoutRow(profiles: nat, k: int, i: nat, primary: int): seq<int>
  {
    [primary] + Span(profiles + i * k + 1, profiles + i * k + k + 1)
  }

  /** `calc_page_layout`: an empty row 0, then one row per profile, starting
      with the page recorded for it in the directory. */
  function PageLayout(profiles: nat, pages: nat, primaries: seq<int>): (r: Result<seq<seq<int>>>)
    requires |primaries| == profiles
    ensures r.Ok? ==> |r.value| == profiles + 1 && r.value[0] == []
  {
    if profiles == 0 then Err(ZeroProfiles)
    else Ok([[]] + seq(profiles, i requires 0 <= i < profiles =>
                         LayoutRow(profiles, PagesPer(profiles, pages), i, primaries[i])))
  }

  /** Row `i` of the layout is the row of profile `i`. */
  lemma LayoutRowAt(profiles: nat, pages: nat, primaries: seq<int>, i: nat)
    requires |primaries| == profiles && PageLayout(profiles, pages, primaries).Ok? && 1 <= i <= profiles
    ensures PageLayout(profiles, pages, primaries).value[i]
         == LayoutRow(profiles, PagesPer(profiles, pages), i - 1, primaries[i - 1])
  {
  }

  /** Page `j` of row `i`: the `j`-th page after the `(i - 1) * k` pages of
      the profiles before it. */
  lemma LayoutEntry(profiles: nat, pages: nat, primaries: seq<int>, i: nat, j: nat)
    requires |primaries| == profiles && PageLayout(profiles, pages, primaries).Ok?
    requires 1 <= i <= profiles && 1 <= j < |PageLayout(profiles, pages, primaries).value[i]|
    ensures var k := PagesPer(profiles, pages);
            k >= 1 && j <= k
            && PageLayout(profiles, pages, primaries).value[i][j] == profiles + (i - 1) * k + j
            && PageLayout(profiles, pages, primaries).value[i][0] == primaries[i - 1]
  {
    var k := PagesPer(profiles, pages);
    var row := PageLayout(profiles, pages, primaries).value[i];
    assert row == LayoutRow(profiles, k, i - 1, primaries[i - 1]);
  }

  /** The pages of all profiles fit below the page count: `profiles * k`
      macro pages after the `profiles` profile pages and page 0. */
  lemma LayoutFits(profiles: nat, pages: nat)
    requires profiles > 0 && PagesPer(profiles, pages) >= 1
    ensures profiles * PagesPer(profiles, pages) <= pages - profiles - 1
  {
    var a := pages - profiles - 1;
    assert a >= 0;
    assert PagesPer(profiles, pages) == a / profiles;
    assert profiles * (a / profiles) + a % profiles == a;
  }

  /** `(i - 1) * k + k` is `i * k`, and it grows with `i`. */
  lemma MulStep(i: nat, n: nat, k: nat)
    requires 1 <= i <= n
    ensures (i - 1) * k + k == i * k <= n * k
  {
    var m := n - i;
    assert n * k == i * k + m * k;
  }

  /** Every macro page of the layout lies above the profile pages and below
      the page count, and row `i` lists its pages in increasing order. */
  lemma LayoutRowBounds(profiles: nat, pages: nat, primaries: seq<int>, i: nat, j: nat)
    requires |primaries| == profiles && PageLayout(profiles, pages, primaries).Ok?
    requires 1 <= i <= profiles && 1 <= j < |PageLayout(profiles, pages, primaries).value[i]|
    ensures var row := PageLayout(profiles, pages, primaries).value[i];
            profiles + 1 <= row[j] <= pages - 1
            && row[0] == primaries[i - 1]
            && (j + 1 < |row| ==> row[j + 1] == row[j] + 1)
  {
    var k := PagesPer(profiles, pages);
    LayoutEntry(profiles, pages, primaries, i, j);
    if j + 1 < |PageLayout(profiles, pages, primaries).value[i]| {
      LayoutEntry(profiles, pages, primaries, i, j + 1);
    }
    MulStep(i, profiles, k);
    LayoutFits(profiles, pages);
  }

  /** The macro pages of two different profiles are different pages: those of
      the earlier profile come first. */
  lemma LayoutRowsDisjoint(profiles: nat, pages: nat, primaries: seq<int>, i1: nat, j1: nat, i2: nat, j2: nat)
    requires |primaries| == profiles && PageLayout(profiles, pages, primaries).Ok?
    requires 1 <= i1 < i2 <= profiles
    requires 1 <= j1 < |PageLayout(profiles, pages, primaries).value[i1]|
    requires 1 <= j2 < |PageLayout(profiles, pages, primaries).value[i2]|
    ensures PageLayout(profiles, pages, primaries).value[i1][j1]
         < PageLayout(profiles, pages, primaries).value[i2][j2]
  {
    var k := PagesPer(profiles, pages);
    LayoutEntry(profiles, pages, primaries, i1, j1);
    LayoutEntry(profiles, pages, primaries, i2, j2);
    MulStep(i1, i2 - 1, k);
  }

  /** Each profile gets `k` macro pages when the quotient is not negative, and
      none otherwise. */
  lemma LayoutRowLength(profiles: nat, pages: nat, primaries: seq<int>, i: nat)
    requires |primaries| == profiles && PageLayout(profiles, pages, primaries).Ok? && 1 <= i <= profiles
    ensures |PageLayout(profiles, pages, primaries).value[i]| == 1 + Max(0, PagesPer(profiles, pages))
  {
    var k := PagesPer(profiles, pages);
    assert PageLayout(profiles, pages, primaries).value[i] == LayoutRow(profiles, k, i - 1, primaries[i - 1]);
  }

  /** 16 pages and 5 profiles leave two macro pages per profile. */
  lemma LayoutOfSixteenPages()
    ensures PageLayout(5, 16, [1, 2, 3, 4, 5])
         == Ok([[], [1, 6, 7], [2, 8, 9], [3, 10, 11], [4, 12, 13], [5, 14, 15]])
  {
    assert PagesPer(5, 16) == 2;
    var l := PageLayout(5, 16, [1, 2, 3, 4, 5]).value;
    assert l[1] == [1] + Span(6, 8) == [1, 6, 7];
    assert l[2] == [2] + Span(8, 10) == [2, 8, 9];
    assert l[3] == [3] + Span(10, 12) == [3, 10, 11];
    assert l[4] == [4] + Span(12, 14) == [4, 12, 13];
    assert l[5] == [5] + Span(14, 16) == [5, 14, 15];
    assert |l| == 6 && l[0] == [];
    assert l == [[], [1, 6, 7], [2, 8, 9], [3, 10, 11], [4, 12, 13], [5, 14, 15]];
  }

  // ---------------------------------------------------------------------------
  // Capabilities and the profile directory

  /** The capability reply of function 0, bytes 4..13 unpacked as
      `>BBBBBBBHB`, and the G-shift buttons it implies. */
  datatype Capabilities = Capabilities(profileFormat: byte, numProfiles: byte, numProfilesOob: byte,
                                       numButtons: byte, numPages: byte, pageSize: u16, numGButtons: nat)

  /** The capability check of the constructor: memory layout 1, profile
      format at most 5, macro format 1, at most 16 buttons and pages of 256 or
      1024 bytes. The G-shift buttons mirror the buttons when the low two bits
      of the G-shift byte are 2. */
  function ParseCapabilities(d: seq<byte>): (r: Result<Capabilities>)
    ensures r.Ok? ==> (r.value.pageSize == 256 || r.value.pageSize == 1024)
                      && r.value.numButtons <= 16 && r.value.profileFormat <= 5
                      && (r.value.numGButtons == r.value.numButtons || r.value.numGButtons == 0)
  {
    if |d| < 14 then Err(ShortData)
    else if d[4] != 1 || d[5] > 5 || d[6] != 1 || d[9] > 16 then Err(UnsupportedDevice)
    else
      var size := ReadBE16(d[11..13]);
      if size != 256 && size != 1024 then Err(UnsupportedDevice)
      else Ok(Capabilities(d[5], d[7], d[8], d[9], d[10], size, if d[13] % 4 == 2 then d[9] else 0))
  }

  /** Which capability replies are accepted, in terms of their bytes. */
  lemma CapabilitiesAccepted(d: seq<byte>)
    ensures ParseCapabilities(d).Ok?
        <==> |d| >= 14 && d[4] == 1 && d[5] <= 5 && d[6] == 1 && d[9] <= 16
             && (d[11..13] == [1, 0] || d[11..13] == [4, 0])
  {
    if |d| >= 14 {
      var w := d[11..13];
      assert w == [w[0], w[1]];
    }
  }

  /** The sample capability reply of a G502: five profiles on sixteen pages of
      256 bytes, eleven buttons, all of them with a G-shift twin. */
  lemma SampleG502()
    ensures ParseCapabilities([0x11, 0xFF, 0x0C, 0x0F, 0x01, 0x02, 0x01, 0x05, 0x05, 0x0B,
                               0x10, 0x01, 0x00, 0x0A, 0x01, 0x00, 0x00, 0x00, 0x00, 0x00])
         == Ok(Capabilities(2, 5, 5, 11, 16, 256, 11))
  {
    var d: seq<byte> := [0x11, 0xFF, 0x0C, 0x0F, 0x01, 0x02, 0x01, 0x05, 0x05, 0x0B,
                         0x10, 0x01, 0x00, 0x0A, 0x01, 0x00, 0x00, 0x00, 0x00, 0x00];
    assert d[11..13] == [1, 0];
    assert ReadBE16(d[11..13]) == 256 && d[13] % 4 == 2;
  }

  /** A directory entry as the constructor caches it: the page of the
      profile, -1 when it is disabled or in ROM, and whether it is visible. */
  datatype Slot = Slot(page: int, visible: bool)

  /** Entry `i` (profile `i + 1`) of the directory on page 0: marker, page and
      visibility at bytes `4 * i` .. `4 * i + 2`. An accepted entry is either
      disabled or in ROM (marker 0xFF or 0x01, no page) or stored on its own
      page `i + 1` (marker 0); it is visible when its third byte is 1. */
  function SlotAt(page0: seq<byte>, i: nat): (r: Result<Slot>)
    ensures r.Ok? ==> i * 4 + 3 <= |page0|
    ensures r.Ok? ==> (r.value.page == -1 <==> page0[i * 4] == 0xFF || page0[i * 4] == 0x01)
    ensures r.Ok? && r.value.page != -1 ==> r.value.page == i + 1 && page0[i * 4] == 0 && page0[i * 4 + 1] == i + 1
    ensures r.Ok? ==> (r.value.visible <==> page0[i * 4 + 2] == 1)
    ensures i * 4 + 3 <= |page0| && (page0[i * 4] == 0xFF || page0[i * 4] == 0x01 || (page0[i * 4 + 1] == i + 1 && page0[i * 4] == 0))
            ==> r.Ok?
  {
    if i * 4 + 3 > |page0| then Err(ShortData)
    else
      var rom, page, vis := page0[i * 4], page0[i * 4 + 1], page0[i * 4 + 2];
      if rom == 0xFF || rom == 0x01 then Ok(Slot(-1, vis == 1))
      else if rom == 0 && page == i + 1 then Ok(Slot(i + 1, vis == 1))
      else Err(MemoryLayoutError)
  }

  /** The first `n` entries of the directory; the first bad entry fails. */
  function Directory(page0: seq<byte>, n: nat): (r: Result<seq<Slot>>)
    ensures r.Ok? <==> forall i :: 0 <= i < n ==> SlotAt(page0, i).Ok?
    ensures r.Ok? ==> |r.value| == n && forall i :: 0 <= i < n ==> r.value[i] == SlotAt(page0, i).value
  {
    if n == 0 then Ok([])
    else
      match Directory(page0, n - 1)
      case Err(e) => Err(e)
      case Ok(slots) =>
        match SlotAt(page0, n - 1)
        case Err(e) => Err(e)
        case Ok(s) => Ok(slots + [s])
  }

  /** The page recorded for each profile, the first column of the layout. */
  function Primaries(slots: seq<Slot>): (ps: seq<int>)
    ensures |ps| == |slots| && forall i :: 0 <= i < |slots| ==> ps[i] == slots[i].page
  {
    seq(|slots|, i requires 0 <= i < |slots| => slots[i].page)
  }

  // ---------------------------------------------------------------------------
  // The setters

  /** The `current_profile` getter: byte 5 of the reply to function 4, which
      is the profile the mouse has active. */
  function CurrentOf(info: seq<byte>, m: Mouse): (r: (int, Mouse))
    ensures r.0 == m.active && r.1 == Next(m, GetCurrent, [0])
  {
    (Answer(info, m, GetCurrent, [0]).value[5], Next(m, GetCurrent, [0]))
  }

  /** What a setter did: its outcome, the mouse after it and the cached
      directory entries (`profile_list[1:]`) after it. */
  datatype Effect = Effect(outcome: Outcome, mouse: Mouse, slots: seq<Slot>)

  /** The page sizes the memory-page functions handle. */
  predicate Paged(size: nat)
  {
    size % 16 == 0 && 16 <= size < 0x1_0000
  }

  /** The `profile_visibility` setter for profile `dest`: nothing to do when
      the profile is disabled, when it would hide the active profile, or when
      the cache already says so; otherwise the cache is updated first, then
      byte `4 * (dest - 1) + 2` of page 0 is rewritten with its checksum. */
  function Visibility(info: seq<byte>, m: Mouse, slots: seq<Slot>, size: nat, dest: nat, visible: bool): Effect
    requires Paged(size) && 1 <= dest <= |slots|
  {
    if !(slots[dest - 1].page > 0) then Effect(Pass, m, slots)
    else
      var (current, m1) := CurrentOf(info, m);
      if current == dest && !visible then Effect(Pass, m1, slots)
      else if slots[dest - 1].visible == visible then Effect(Pass, m1, slots)
      else
        var (written, m2) := VisibilityByteWrite(m1, size, dest, visible);
        Effect(written, m2, slots[dest - 1 := slots[dest - 1].(visible := visible)])
  }

  /** The write half of the visibility setter: page 0 read without its
      checksum, byte `4 * (dest - 1) + 2` set to 1 or 0, the page written back
      with a new checksum. */
  function VisibilityByteWrite(m: Mouse, size: nat, dest: nat, visible: bool): (r: (Outcome, Mouse))
    requires Paged(size) && 1 <= dest
  {
    var (read, m1) := ReadPage(m, size, 0, false);
    if read.Err? then (Fail(read.error), m1)
    else if (dest - 1) * 4 + 2 >= |read.value| then (Fail(PageIndex), m1)
    else WritePage(m1, size, 0, read.value[(dest - 1) * 4 + 2 := if visible then 1 else 0], true)
  }

  /** The directory entry of an enabled profile, and that of a disabled one. */
  function Entry(dest: byte, enabled: bool): seq<byte>
  {
    if enabled then [0, dest, 1, 0] else [0xFF, 0xFF, 0xFF, 0xFF]
  }

  /** The `profile_enabled` setter for profile `dest`: page 0 is read first;
      nothing changes when `dest` is the active profile; otherwise bytes
      `4 * (dest - 1)` .. `4 * dest` of page 0 become the entry, the cached page
      becomes `dest` or -1, and page 0 is written back with its checksum. */
  function Enable(info: seq<byte>, m: Mouse, slots: seq<Slot>, size: nat, dest: nat, enabled: bool): Effect
    requires Paged(size) && 1 <= dest <= |slots| && dest < 0x100
  {
    var (read, m1) := ReadPage(m, size, 0, false);
    if read.Err? then Effect(Fail(read.error), m1, slots)
    else
      var (current, m2) := CurrentOf(info, m1);
      if current == dest then Effect(Pass, m2, slots)
      else
        var data := SliceAssign(read.value, (dest - 1) * 4, dest * 4, Entry(dest, enabled));
        var slots' := slots[dest - 1 := slots[dest - 1].(page := if enabled then dest else -1)];
        var (written, m3) := WritePage(m2, size, 0, data, true);
        Effect(written, m3, slots')
  }

  /** The `current_profile` setter: an index outside 1..`profiles` is refused;
      nothing is switched when it is already active; otherwise, when the cache
      says profile `dest` (not the requested one) is hidden, `dest` is made
      visible first, then function 3 switches to the index. */
  function Switch(info: seq<byte>, m: Mouse, slots: seq<Slot>, size: nat, dest: nat, index: int): Effect
    requires Paged(size) && 1 <= dest <= |slots| < 0x100
  {
    if !(1 <= index <= |slots|) then Effect(Fail(WrongProfileIndex), m, slots)
    else
      var (current, m1) := CurrentOf(info, m);
      if index == current then Effect(Pass, m1, slots)
      else
        var shown := if !slots[dest - 1].visible then Visibility(info, m1, slots, size, dest, true)
                     else Effect(Pass, m1, slots);
        if shown.outcome.Fail? then shown
        else Effect(Pass, Next(shown.mouse, SetCurrent, [0, index, 0]), shown.slots)
  }

  /** Writing `data` over `page0` at `at` and stamping the page leaves `data`
      there when it ends before the checksum. */
  lemma StampedKeeps(page0: seq<byte>, at: nat, x: seq<byte>)
    requires at + |x| + 2 <= |page0|
    ensures var d := Stamped(SliceAssign(page0, at, at + |x|, x), true);
            |d| == |page0| && d[at..at + |x|] == x
            && forall j :: 0 <= j < |page0| - 2 && !(at <= j < at + |x|) ==> d[j] == page0[j]
  {
    SliceAssignInPlace(page0, at, x);
    var s := SliceAssign(page0, at, at + |x|, x);
    var d := Stamped(s, true);
    assert d[..|d| - 2] == s[..|s| - 2];
    forall j | 0 <= j < |page0| - 2 && !(at <= j < at + |x|)
      ensures d[j] == page0[j]
    {
      assert d[j] == s[j];
      if j < at {
        assert s[j] == s[..at][j];
      } else {
        assert s[j] == (page0[..at] + x + page0[at + |x|..])[j];
      }
    }
  }

  /** Enabling or disabling a profile other than the active one rewrites its
      directory entry and nothing else before the checksum, writes page 0 back
      with a valid checksum, and the constructor's parse of the new page 0
      finds the profile on its own page (enabled, and visible) or without a
      page (disabled, and hidden). The cache records the new page. */
  lemma EnableWritesEntry(info: seq<byte>, m: Mouse, slots: seq<Slot>, size: nat, dest: nat, enabled: bool)
    requires Paged(size) && 1 <= dest <= |slots| && dest < 0x100
    requires size <= |Held(m, 0)| && dest * 4 + 2 <= size && m.active != dest
    ensures var e := Enable(info, m, slots, size, dest, enabled);
            var page0 := Held(m, 0)[..size];
            e.outcome == Pass && e.mouse.active == m.active
            && 0 in e.mouse.pages && |e.mouse.pages[0]| == size && ChecksumOk(e.mouse.pages[0])
            && SlotAt(e.mouse.pages[0], dest - 1) == Ok(Slot(if enabled then dest else -1, enabled))
            && (forall j :: 0 <= j < size - 2 && !((dest - 1) * 4 <= j < dest * 4)
                  ==> e.mouse.pages[0][j] == page0[j])
            && (forall p :: p != 0 ==> Held(e.mouse, p) == Held(m, p))
            && e.slots == slots[dest - 1 := slots[dest - 1].(page := if enabled then dest else -1)]
  {
    var page0 := Held(m, 0)[..size];
    var x := Entry(dest, enabled);
    var data := SliceAssign(page0, (dest - 1) * 4, dest * 4, x);
    EnableStores(info, m, slots, size, dest, enabled);
    StampedKeeps(page0, (dest - 1) * 4, x);
    StampedVerifies(data);
    EntryParses(Stamped(data, true), dest, enabled);
  }

  /** What the setter does when the profile is not the active one: it reads
      page 0, asks for the active profile, and stores page 0 with the entry
      replaced and a fresh checksum. */
  lemma EnableStores(info: seq<byte>, m: Mouse, slots: seq<Slot>, size: nat, dest: nat, enabled: bool)
    requires Paged(size) && 1 <= dest <= |slots| && dest < 0x100
    requires size <= |Held(m, 0)| && dest * 4 + 2 <= size && m.active != dest
    ensures var e := Enable(info, m, slots, size, dest, enabled);
            var data := SliceAssign(Held(m, 0)[..size], (dest - 1) * 4, dest * 4, Entry(dest, enabled));
            e.outcome == Pass && e.mouse.active == m.active
            && e.mouse.pages == m.pages[0 := Stamped(data, true)]
            && e.slots == slots[dest - 1 := slots[dest - 1].(page := if enabled then dest else -1)]
  {
    assert ReadPage(m, size, 0, false).0 == Ok(Held(m, 0)[..size]);
  }

  /** A page holding the entry of profile `dest` at its place parses to the
      profile on its own page or to a disabled one. */
  lemma EntryParses(d: seq<byte>, dest: nat, enabled: bool)
    requires 1 <= dest < 0x100 && dest * 4 <= |d| && d[(dest - 1) * 4..dest * 4] == Entry(dest, enabled)
    ensures SlotAt(d, dest - 1) == Ok(Slot(if enabled then dest else -1, enabled))
  {
    var x := Entry(dest, enabled);
    assert d[(dest - 1) * 4] == x[0] && d[(dest - 1) * 4 + 1] == x[1] && d[(dest - 1) * 4 + 2] == x[2];
  }

  /** Nothing is written when the profile to enable or disable is the active
      one: the active profile cannot be disabled. */
  lemma EnableLeavesActive(info: seq<byte>, m: Mouse, slots: seq<Slot>, size: nat, dest: nat, enabled: bool)
    requires Paged(size) && 1 <= dest <= |slots| && dest < 0x100
    requires size <= |Held(m, 0)| && m.active == dest
    ensures var e := Enable(info, m, slots, size, dest, enabled);
            e.outcome == Pass && e.mouse.pages == m.pages && e.mouse.active == m.active && e.slots == slots
  {
  }

  /** Page 0 of `m'` is page 0 of `m` with the visibility byte of entry `i`
      set and a new checksum: only that byte changed before the checksum, the
      entry parses with the new visibility, and no other page changed. */
  ghost predicate VisibilityRewritten(m: Mouse, m': Mouse, size: nat, i: nat, visible: bool)
    requires size <= |Held(m, 0)| && i * 4 + 5 <= size
  {
    var page0 := Held(m, 0)[..size];
    0 in m'.pages && |m'.pages[0]| == size && ChecksumOk(m'.pages[0])
    && m'.pages[0][i * 4 + 2] == (if visible then 1 else 0)
    && (forall j :: 0 <= j < size - 2 && j != i * 4 + 2 ==> m'.pages[0][j] == page0[j])
    && (SlotAt(page0, i).Ok? ==> SlotAt(m'.pages[0], i) == Ok(SlotAt(page0, i).value.(visible := visible)))
    && (forall p :: p != 0 ==> Held(m', p) == Held(m, p))
  }

  /** Showing or hiding an enabled profile whose cached visibility differs,
      other than hiding the active one, succeeds, rewrites only its
      visibility byte on page 0 with a valid checksum, leaves the active
      profile alone, and records the new visibility in the cache. */
  lemma VisibilityWritesByte(info: seq<byte>, m: Mouse, slots: seq<Slot>, size: nat, dest: nat, visible: bool)
    requires Paged(size) && 1 <= dest <= |slots|
    requires size <= |Held(m, 0)| && dest * 4 + 2 <= size
    requires slots[dest - 1].page > 0 && slots[dest - 1].visible != visible
    requires !(m.active == dest && !visible)
    ensures var e := Visibility(info, m, slots, size, dest, visible);
            e.outcome == Pass && e.mouse.active == m.active
            && VisibilityRewritten(m, e.mouse, size, dest - 1, visible)
            && e.slots == slots[dest - 1 := slots[dest - 1].(visible := visible)]
  {
    VisibilityPath(info, m, slots, size, dest, visible);
    var e := Visibility(info, m, slots, size, dest, visible);
    ByteRewritten(m, e.mouse, size, dest - 1, visible);
  }

  /** The path of the visibility setter that writes page 0. */
  lemma VisibilityPath(info: seq<byte>, m: Mouse, slots: seq<Slot>, size: nat, dest: nat, visible: bool)
    requires Paged(size) && 1 <= dest <= |slots|
    requires size <= |Held(m, 0)| && dest * 4 + 2 <= size
    requires slots[dest - 1].page > 0 && slots[dest - 1].visible != visible
    requires !(m.active == dest && !visible)
    ensures var page0 := Held(m, 0)[..size];
            var data := page0[(dest - 1) * 4 + 2 := if visible then 1 else 0];
            var d := Stamped(data, true);
            var e := Visibility(info, m, slots, size, dest, visible);
            e.outcome == Pass && e.mouse.active == m.active && e.mouse.pages == m.pages[0 := d]
            && e.slots == slots[dest - 1 := slots[dest - 1].(visible := visible)]
  {
    var m1 := CurrentOf(info, m).1;
    assert ReadPage(m1, size, 0, false).0 == Ok(Held(m, 0)[..size]);
  }

  /** Page 0 with byte `at` set to `v` and stamped keeps every other byte
      before the checksum. */
  lemma VisibilityByte(page0: seq<byte>, at: nat, v: byte)
    requires at + 3 <= |page0|
    ensures var d := Stamped(page0[at := v], true);
            |d| == |page0| && d[at] == v
            && forall j :: 0 <= j < |page0| - 2 && j != at ==> d[j] == page0[j]
  {
    assert page0[at := v] == SliceAssign(page0, at, at + 1, [v]);
    StampedKeeps(page0, at, [v]);
    var d := Stamped(page0[at := v], true);
    assert d[at..at + 1] == [v];
  }

  /** Stamping page 0 with the visibility byte of entry `i` set rewrites it
      as `VisibilityRewritten` says. */
  lemma ByteRewritten(m: Mouse, m': Mouse, size: nat, i: nat, visible: bool)
    requires 16 <= size <= |Held(m, 0)| && i * 4 + 5 <= size
    requires m'.pages == m.pages[0 := Stamped(Held(m, 0)[..size][i * 4 + 2 := if visible then 1 else 0], true)]
    ensures VisibilityRewritten(m, m', size, i, visible)
  {
    var page0 := Held(m, 0)[..size];
    var v: byte := if visible then 1 else 0;
    var data := page0[i * 4 + 2 := v];
    var d := Stamped(data, true);
    VisibilityByte(page0, i * 4 + 2, v);
    StampedVerifies(data);
    if SlotAt(page0, i).Ok? {
      SlotReparse(page0, d, i, visible);
    }
  }

  /** An entry whose marker and page bytes are kept and whose third byte is
      set parses to the same entry with the new visibility. */
  lemma SlotReparse(page0: seq<byte>, d: seq<byte>, i: nat, visible: bool)
    requires |d| == |page0| && i * 4 + 3 <= |page0| && SlotAt(page0, i).Ok?
    requires d[i * 4] == page0[i * 4] && d[i * 4 + 1] == page0[i * 4 + 1]
    requires d[i * 4 + 2] == if visible then 1 else 0
    ensures SlotAt(d, i) == Ok(SlotAt(page0, i).value.(visible := visible))
  {
  }

  /** Hiding the active profile changes nothing on the mouse or in the cache. */
  lemma VisibilityKeepsActiveShown(info: seq<byte>, m: Mouse, slots: seq<Slot>, size: nat, dest: nat)
    requires Paged(size) && 1 <= dest <= |slots| && m.active == dest
    ensures var e := Visibility(info, m, slots, size, dest, false);
            e.outcome == Pass && e.mouse.pages == m.pages && e.slots == slots
  {
  }

  /** The visibility setter neither switches profiles nor writes a page other
      than page 0. */
  lemma VisibilityKeepsRest(info: seq<byte>, m: Mouse, slots: seq<Slot>, size: nat, dest: nat, visible: bool)
    requires Paged(size) && 1 <= dest <= |slots|
    ensures var e := Visibility(info, m, slots, size, dest, visible);
            e.mouse.active == m.active && (forall p :: p != 0 ==> Held(e.mouse, p) == Held(m, p))
            && |e.slots| == |slots| && (forall i :: 0 <= i < |slots| && i != dest - 1 ==> e.slots[i] == slots[i])
  {
  }

  /** A switch that succeeds leaves the requested profile active, and an
      index outside 1..`profiles` changes nothing. */
  lemma SwitchActivates(info: seq<byte>, m: Mouse, slots: seq<Slot>, size: nat, dest: nat, index: int)
    requires Paged(size) && 1 <= dest <= |slots| < 0x100
    ensures var e := Switch(info, m, slots, size, dest, index);
            (e.outcome == Pass ==> 1 <= index <= |slots| && e.mouse.active == index)
            && (!(1 <= index <= |slots|) ==> e == Effect(Fail(WrongProfileIndex), m, slots))
  {
    if 1 <= index <= |slots| {
      var m1 := CurrentOf(info, m).1;
      if index != m.active && !slots[dest - 1].visible {
        VisibilityKeepsRest(info, m1, slots, size, dest, true);
      }
    }
  }

  /** Before switching to another profile, the setter makes the working
      profile `dest` visible, whichever index it switches to, and leaves the
      cached visibility of every other profile alone: the requested profile is
      only made visible when it is `dest`, as the command line always asks. */
  lemma SwitchShowsDest(info: seq<byte>, m: Mouse, slots: seq<Slot>, size: nat, dest: nat, index: int)
    requires Paged(size) && 1 <= dest <= |slots| < 0x100 && index != m.active
    ensures var e := Switch(info, m, slots, size, dest, index);
            (e.outcome == Pass && slots[dest - 1].page > 0 ==> e.slots[dest - 1].visible)
            && |e.slots| == |slots| && (forall i :: 0 <= i < |slots| && i != dest - 1 ==> e.slots[i] == slots[i])
  {
    if 1 <= index <= |slots| && !slots[dest - 1].visible {
      VisibilityKeepsRest(info, CurrentOf(info, m).1, slots, size, dest, true);
    }
  }

  // ---------------------------------------------------------------------------
  // Saving a profile

  /** The macro pages of `onboard_profile_save` from `data[i]` on: each one
      written unverified to the page the layout row gives it; a row too short
      for the data, or a page of the wrong size, ends the save. */
  function SaveMacros(m: Mouse, size: nat, row: seq<int>, data: seq<seq<byte>>, i: nat): (r: (Outcome, Mouse))
    requires Paged(size)
    ensures r.1.active == m.active
    decreases |data| - i
  {
    if i >= |data| then (Pass, m)
    else if i >= |row| then (Fail(LayoutIndex), m)
    else
      var (written, m1) := WritePage(m, size, row[i], data[i], false);
      if written.Fail? then (written, m1) else SaveMacros(m1, size, row, data, i + 1)
  }

  /** `onboard_profile_save(data)` for the working profile `dest`: refused when
      the directory does not have the profile on its own page; otherwise the
      profile page `data[0]` goes, with its checksum, to the first page of the
      layout row and each macro page to the row's next pages. */
  function Save(m: Mouse, size: nat, slots: seq<Slot>, layout: seq<seq<int>>, dest: nat, data: seq<seq<byte>>): (r: (Outcome, Mouse))
    requires Paged(size) && 1 <= dest <= |slots| && dest < |layout|
    ensures r.1.active == m.active
  {
    if slots[dest - 1].page != dest then (Fail(MemoryLayoutError), m)
    else if |data| == 0 then (Fail(MissingPage), m)
    else if |layout[dest]| == 0 then (Fail(LayoutIndex), m)
    else
      var (written, m1) := WritePage(m, size, layout[dest][0], data[0], true);
      if written.Fail? then (written, m1) else SaveMacros(m1, size, layout[dest], data, 1)
  }

  /** The pages of a layout row are distinct page numbers `struct.pack` takes. */
  predicate Distinct(row: seq<int>)
  {
    (forall k :: 0 <= k < |row| ==> IsU16(row[k]))
    && forall k1, k2 :: 0 <= k1 < k2 < |row| ==> row[k1] != row[k2]
  }

  /** Every page to save is `size` bytes. */
  predicate Sized(data: seq<seq<byte>>, size: nat)
  {
    forall k :: 0 <= k < |data| ==> |data[k]| == size
  }

  /** The macro pages from `data[i]` on land, each on its own page of the row,
      and no other page changes. */
  lemma {:induction false} SaveMacrosStores(m: Mouse, size: nat, row: seq<int>, data: seq<seq<byte>>, i: nat)
    requires Paged(size) && Distinct(row) && Sized(data, size) && i <= |data| <= |row|
    ensures var r := SaveMacros(m, size, row, data, i);
            r.0 == Pass
            && (forall k :: i <= k < |data| ==> Held(r.1, row[k]) == data[k])
            && (forall p :: (forall k :: i <= k < |data| ==> row[k] != p) ==> Held(r.1, p) == Held(m, p))
    decreases |data| - i
  {
    if i < |data| {
      var m1 := WritePage(m, size, row[i], data[i], false).1;
      assert Held(m1, row[i]) == data[i];
      SaveMacrosStores(m1, size, row, data, i + 1);
    }
  }

  /** A save of a profile on its own page, with a layout row long enough and
      pages of the right size, succeeds: the profile page holds `data[0]` with
      its checksum, page `k` of the row holds `data[k]`, and no page outside
      the row changes. This is what the macro reader expects of the pages. */
  lemma SaveStores(m: Mouse, size: nat, slots: seq<Slot>, layout: seq<seq<int>>, dest: nat, data: seq<seq<byte>>)
    requires Paged(size) && 1 <= dest <= |slots| && dest < |layout|
    requires slots[dest - 1].page == dest && Distinct(layout[dest]) && Sized(data, size)
    requires 1 <= |data| <= |layout[dest]|
    ensures var r := Save(m, size, slots, layout, dest, data);
            var row := layout[dest];
            r.0 == Pass
            && Held(r.1, row[0]) == Stamped(data[0], true) && ChecksumOk(Held(r.1, row[0]))
            && (forall k :: 1 <= k < |data| ==> Held(r.1, row[k]) == data[k])
            && (forall p :: (forall k :: 0 <= k < |row| ==> row[k] != p) ==> Held(r.1, p) == Held(m, p))
  {
    var row := layout[dest];
    var m1 := WritePage(m, size, row[0], data[0], true).1;
    SaveMacrosStores(m1, size, row, data, 1);
    StampedVerifies(data[0]);
    assert Held(m1, row[0]) == Stamped(data[0], true);
  }

  /** A row of the layout, for a profile recorded on a page at most the
      profile count, lists distinct pages below the page count. */
  lemma LayoutRowDistinct(profiles: nat, pages: nat, primaries: seq<int>, i: nat)
    requires |primaries| == profiles && PageLayout(profiles, pages, primaries).Ok?
    requires 1 <= i <= profiles < 0x1_0000 && 0 <= primaries[i - 1] <= profiles && pages <= 0x1_0000
    ensures Distinct(PageLayout(profiles, pages, primaries).value[i])
  {
    var row := PageLayout(profiles, pages, primaries).value[i];
    forall k | 0 <= k < |row|
      ensures IsU16(row[k])
    {
      if k > 0 {
        LayoutRowBounds(profiles, pages, primaries, i, k);
      }
    }
    forall k1, k2 | 0 <= k1 < k2 < |row|
      ensures row[k1] != row[k2]
    {
      LayoutEntry(profiles, pages, primaries, i, k2);
      if k1 > 0 {
        LayoutEntry(profiles, pages, primaries, i, k1);
      } else {
        LayoutRowBounds(profiles, pages, primaries, i, k2);
      }
    }
  }

  // ---------------------------------------------------------------------------
  // Opening the feature

  /** What the constructor finds: the capabilities, the directory entries of
      the profiles and the page layout. */
  datatype Opened = Opened(caps: Capabilities, slots: seq<Slot>, layout: seq<seq<int>>)

  /** The constructor on a device with or without feature 0x8100: the
      capability reply is checked, page 0 is read with its checksum, its first
      `numProfiles` entries are parsed and the layout is planned from them. */
  function OpenSpec(info: seq<byte>, onboard: bool, m: Mouse): (r: (Result<Opened>, Mouse))
    ensures r.1.active == m.active
    ensures r.0.Ok? ==> var o := r.0.value;
              |o.slots| == o.caps.numProfiles && |o.layout| == o.caps.numProfiles + 1
              && (o.caps.pageSize == 256 || o.caps.pageSize == 1024)
              && PageLayout(o.caps.numProfiles, o.caps.numPages, Primaries(o.slots)) == Ok(o.layout)
  {
    if !onboard then (Err(UnsupportedFeature), m)
    else
      var reply := Answer(info, m, GetInfo, [0]).value;
      var m1 := Next(m, GetInfo, [0]);
      var parsed := ParseCapabilities(reply);
      if parsed.Err? then (Err(parsed.error), m1)
      else
        var caps := parsed.value;
        var (read, m2) := ReadPage(m1, caps.pageSize, 0, true);
        if read.Err? then (Err(read.error), m2)
        else
          var slots := Directory(read.value, caps.numProfiles);
          if slots.Err? then (Err(slots.error), m2)
          else
            var layout := PageLayout(caps.numProfiles, caps.numPages, Primaries(slots.value));
            if layout.Err? then (Err(layout.error), m2)
            else (Ok(Opened(caps, slots.value, layout.value)), m2)
  }

  /** Once opened, the layout row of every profile stored on its own page
      lists distinct pages, the first of them the profile's own: a save of
      that profile puts each page where the reader looks for it. */
  lemma OpenedRowsDistinct(info: seq<byte>, onboard: bool, m: Mouse, dest: nat)
    requires OpenSpec(info, onboard, m).0.Ok?
    requires var o := OpenSpec(info, onboard, m).0.value;
             1 <= dest <= |o.slots| && o.slots[dest - 1].page == dest
    ensures var o := OpenSpec(info, onboard, m).0.value;
            Distinct(o.layout[dest]) && o.layout[dest][0] == dest
  {
    var o := OpenSpec(info, onboard, m).0.value;
    var primaries := Primaries(o.slots);
    LayoutRowDistinct(o.caps.numProfiles, o.caps.numPages, primaries, dest);
    LayoutRowLength(o.caps.numProfiles, o.caps.numPages, primaries, dest);
    assert o.layout[dest] == LayoutRow(o.caps.numProfiles, PagesPer(o.caps.numProfiles, o.caps.numPages), dest - 1, primaries[dest - 1]);
  }

  /** `i * 16 <= h < i * 16 + 16` pins the chunk index down. */
  /** The `i`-th chunk request of a page read, once the first `i` have been
      answered: the mouse answers with the next 16 bytes of the page, or
      nothing when the page ends before them, and records the request. */
  lemma ReadChunk(info: seq<byte>, m0: Mouse, page: u16, i: nat)
    requires (i + 1) * 16 <= 0x1_0000
    ensures var m := m0.(sent := m0.sent + ReadRequests(page, i));
            var params := BE16(page) + BE16(i * 16);
            var reply := Answer(info, m, MemRead, params);
            var held := Held(m0, page);
            (reply.Some? <==> i * 16 + 16 <= |held|)
            && (reply.Some? ==> reply.value[4..] == held[i * 16..i * 16 + 16])
            && Next(m, MemRead, params) == m0.(sent := m0.sent + ReadRequests(page, i + 1))
  {
    var params := BE16(page) + BE16(i * 16);
    assert params[..2] == BE16(page) && params[2..4] == BE16(i * 16);
    BE16RoundTrip(page);
    BE16RoundTrip(i * 16);
    assert ReadRequests(page, i + 1) == ReadRequests(page, i) + [ReadRequest(page, i)];
  }

  lemma ChunkIndex(i: nat, h: nat)
    requires i * 16 <= h < i * 16 + 16
    ensures h / 16 == i
  {
  }

  // ---------------------------------------------------------------------------
  // The feature object

  /** `FeatureOnboardProfile`: the device, what the constructor found, and
      the working profile `dest` (0 until `dest_profile` is set). The cached
      directory leaves out the placeholder entry 0 of `profile_list`. */
  class FeatureOnboardProfile {
    const dev: Device
    const caps: Capabilities
    const extendedReportRate: bool
    var profileList: seq<Slot>
    var pageLayout: seq<seq<int>>
    var dest: int

    /** The capabilities the constructor accepts and a cache of one entry per
        profile and one layout row per profile after row 0. */
    predicate Valid()
      reads this
    {
      (caps.pageSize == 256 || caps.pageSize == 1024)
      && |profileList| == caps.numProfiles && |pageLayout| == caps.numProfiles + 1
    }

    constructor Make(dev: Device, caps: Capabilities, extendedReportRate: bool, slots: seq<Slot>, layout: seq<seq<int>>)
      ensures this.dev == dev && this.caps == caps && this.extendedReportRate == extendedReportRate
      ensures profileList == slots && pageLayout == layout && dest == 0
    {
      this.dev, this.caps, this.extendedReportRate := dev, caps, extendedReportRate;
      profileList, pageLayout, dest := slots, layout, 0;
    }

    /** The constructor; the object only exists when every check passes. */
    static method Open(dev: Device) returns (r: Result<FeatureOnboardProfile>)
      modifies dev
      ensures (r.Ok?, dev.mouse) == (OpenSpec(dev.info, dev.onboard, old(dev.mouse)).0.Ok?, OpenSpec(dev.info, dev.onboard, old(dev.mouse)).1)
      ensures r.Err? ==> OpenSpec(dev.info, dev.onboard, old(dev.mouse)).0 == Err(r.error)
      ensures r.Ok? ==> var o := OpenSpec(dev.info, dev.onboard, old(dev.mouse)).0.value;
                        fresh(r.value) && r.value.Valid() && r.value.dev == dev
                        && r.value.caps == o.caps && r.value.profileList == o.slots && r.value.pageLayout == o.layout
                        && r.value.extendedReportRate == dev.extendedRate && r.value.dest == 0
    {
      if !dev.onboard {
        return Err(UnsupportedFeature);
      }
      var reply := dev.Call(GetInfo, [0]);
      var parsed := ParseCapabilities(reply.value);
      if parsed.Err? {
        return Err(parsed.error);
      }
      var caps := parsed.value;
      var page0 := ReadMemoryPageOf(dev, caps.pageSize, 0, true);
      if page0.Err? {
        return Err(page0.error);
      }
      var slots := Directory(page0.value, caps.numProfiles);
      if slots.Err? {
        return Err(slots.error);
      }
      var layout := CalcPageLayout(caps.numProfiles, caps.numPages, slots.value);
      if layout.Err? {
        return Err(layout.error);
      }
      var feature := new FeatureOnboardProfile.Make(dev, caps, dev.extendedRate, slots.value, layout.value);
      return Ok(feature);
    }

    /** `read_memory_page(page, verify)` */
    method ReadMemoryPage(page: int, verify: bool) returns (r: Result<seq<byte>>)
      requires Valid()
      modifies dev
      ensures (r, dev.mouse) == ReadPage(old(dev.mouse), caps.pageSize, page, verify)
    {
      r := ReadMemoryPageOf(dev, caps.pageSize, page, verify);
    }

    /** The read loop: one request per 16 bytes, then the checksum check. */
    static method ReadMemoryPageOf(dev: Device, size: nat, page: int, verify: bool) returns (r: Result<seq<byte>>)
      requires size % 16 == 0 && 16 <= size <= 0x1_0000
      modifies dev
      ensures (r, dev.mouse) == ReadPage(old(dev.mouse), size, page, verify)
    {
      if !IsU16(page) {
        return Err(BadArgument);
      }
      ghost var m0 := dev.mouse;
      ghost var held := Held(m0, page);
      var ret: seq<byte> := [];
      var i := 0;
      while i < size / 16
        invariant 0 <= i <= size / 16 && i * 16 <= |held|
        invariant ret == held[..i * 16]
        invariant dev.mouse == m0.(sent := m0.sent + ReadRequests(page, i))
      {
        var params := BE16(page) + BE16(i * 16);
        ReadChunk(dev.info, m0, page, i);
        var reply := dev.Call(MemRead, params);
        if reply.None? {
          assert |held| < i * 16 + 16 <= size;
          ChunkIndex(i, |held|);
          return Err(NoReply);
        }
        ret := ret + reply.value[4..];
        assert held[..(i + 1) * 16] == held[..i * 16] + held[i * 16..i * 16 + 16];
        i := i + 1;
      }
      if verify {
        var crc := Crc16Ccitt(ret[..|ret| - 2]);
        if crc != ReadBE16(ret[|ret| - 2..]) {
          return Err(ChecksumMismatch);
        }
      }
      return Ok(ret);
    }

    /** `write_memory_page(page, data, verify)` */
    method WriteMemoryPage(page: int, data: seq<byte>, verify: bool) returns (r: Outcome)
      requires Valid()
      modifies dev
      ensures (r, dev.mouse) == WritePage(old(dev.mouse), caps.pageSize, page, data, verify)
    {
      r := WriteMemoryPageOf(dev, caps.pageSize, page, data, verify);
    }

    /** The size check and the checksum, then the page goes out. */
    static method WriteMemoryPageOf(dev: Device, size: nat, page: int, data: seq<byte>, verify: bool) returns (r: Outcome)
      requires size % 16 == 0 && 16 <= size < 0x1_0000
      modifies dev
      ensures (r, dev.mouse) == WritePage(old(dev.mouse), size, page, data, verify)
    {
      if |data| != size {
        return Fail(WrongPageSize);
      }
      var d := data;
      if verify {
        var crc := Crc16Ccitt(data[..|data| - 2]);
        d := data[..|data| - 2] + BE16(crc);
      }
      if !IsU16(page) {
        return Fail(BadArgument);
      }
      assert d == Stamped(data, verify);
      SendPage(dev, page, d);
      return Pass;
    }

    /** Function 6 to begin, function 7 for each 16 bytes, function 8 to
        commit: the mouse then holds `d` as `page`. */
    static method SendPage(dev: Device, page: u16, d: seq<byte>)
      requires |d| % 16 == 0 && |d| < 0x1_0000
      modifies dev
      ensures dev.mouse == old(dev.mouse).(pages := old(dev.mouse).pages[page := d], target := page, staged := d,
                                           sent := old(dev.mouse).sent + WriteRequests(page, d))
    {
      ghost var m0 := dev.mouse;
      var start := BE16(page) + BE16(0) + BE16(|d|);
      assert start[..2] == BE16(page);
      BE16RoundTrip(page);
      var _ := dev.Call(MemWriteStart, start);
      var i := 0;
      while i < |d| / 16
        invariant 0 <= i <= |d| / 16
        invariant dev.mouse.pages == m0.pages && dev.mouse.active == m0.active && dev.mouse.target == page
        invariant dev.mouse.staged == d[..i * 16]
        invariant dev.mouse.sent == m0.sent + [Request(MemWriteStart, start)] + ChunkRequests(d, i)
      {
        var _ := dev.Call(MemWrite, d[i * 16..i * 16 + 16]);
        assert d[..(i + 1) * 16] == d[..i * 16] + d[i * 16..i * 16 + 16];
        assert ChunkRequests(d, i + 1) == ChunkRequests(d, i) + [Request(MemWrite, d[i * 16..i * 16 + 16])];
        i := i + 1;
      }
      assert d[..i * 16] == d;
      var _ := dev.Call(MemWriteEnd, [0]);
    }

    /** The `current_profile` getter. */
    method GetCurrentProfile() returns (current: int)
      modifies dev
      ensures (current, dev.mouse) == CurrentOf(dev.info, old(dev.mouse))
    {
      var reply := dev.Call(GetCurrent, [0]);
      current := reply.value[5];
    }

    /** The `dest_profile` setter: the working profile of the setters and of
        the save, one of 1..`numProfiles`. */
    method SetDestProfile(index: int) returns (r: Outcome)
      modifies this
      ensures r == (if 1 <= index <= caps.numProfiles then Pass else Fail(WrongProfileIndex))
      ensures dest == (if r.Pass? then index else old(dest))
      ensures profileList == old(profileList) && pageLayout == old(pageLayout)
    {
      if !(1 <= index <= caps.numProfiles) {
        return Fail(WrongProfileIndex);
      }
      dest := index;
      return Pass;
    }

    /** The `profile_visibility` setter. */
    method SetProfileVisibility(visible: bool) returns (r: Outcome)
      requires Valid() && 1 <= dest <= caps.numProfiles
      modifies this, dev
      ensures Valid() && dest == old(dest) && pageLayout == old(pageLayout)
      ensures Effect(r, dev.mouse, profileList)
           == Visibility(dev.info, old(dev.mouse), old(profileList), caps.pageSize, dest, visible)
    {
      if !(profileList[dest - 1].page > 0) {
        return Pass;
      }
      var current := GetCurrentProfile();
      if current == dest && !visible {
        return Pass;
      }
      if profileList[dest - 1].visible == visible {
        return Pass;
      }
      profileList := profileList[dest - 1 := profileList[dest - 1].(visible := visible)];
      r := WriteVisibilityByte(visible);
    }

    /** Page 0 with the visibility byte of the working profile rewritten. */
    method WriteVisibilityByte(visible: bool) returns (r: Outcome)
      requires Valid() && 1 <= dest
      modifies dev
      ensures (r, dev.mouse) == VisibilityByteWrite(old(dev.mouse), caps.pageSize, dest, visible)
    {
      var data := ReadMemoryPage(0, false);
      if data.Err? {
        return Fail(data.error);
      }
      if (dest - 1) * 4 + 2 >= |data.value| {
        return Fail(PageIndex);
      }
      var page := data.value[(dest - 1) * 4 + 2 := if visible then 1 else 0];
      r := WriteMemoryPage(0, page, true);
    }

    /** The `profile_enabled` setter. */
    method SetProfileEnabled(enabled: bool) returns (r: Outcome)
      requires Valid() && 1 <= dest <= caps.numProfiles
      modifies this, dev
      ensures Valid() && dest == old(dest) && pageLayout == old(pageLayout)
      ensures Effect(r, dev.mouse, profileList)
           == Enable(dev.info, old(dev.mouse), old(profileList), caps.pageSize, dest, enabled)
    {
      var data := ReadMemoryPage(0, false);
      if data.Err? {
        return Fail(data.error);
      }
      var current := GetCurrentProfile();
      if current == dest {
        return Pass;
      }
      var page := SliceAssign(data.value, (dest - 1) * 4, dest * 4, Entry(dest, enabled));
      profileList := profileList[dest - 1 := profileList[dest - 1].(page := if enabled then dest else -1)];
      r := WriteMemoryPage(0, page, true);
    }

    /** The `current_profile` setter. */
    method SetCurrentProfile(index: int) returns (r: Outcome)
      requires Valid() && 1 <= dest <= caps.numProfiles
      modifies this, dev
      ensures Valid() && dest == old(dest) && pageLayout == old(pageLayout)
      ensures Effect(r, dev.mouse, profileList)
           == Switch(dev.info, old(dev.mouse), old(profileList), caps.pageSize, dest, index)
    {
      if !(1 <= index <= caps.numProfiles) {
        return Fail(WrongProfileIndex);
      }
      var current := GetCurrentProfile();
      if index == current {
        return Pass;
      }
      if !profileList[dest - 1].visible {
        var shown := SetProfileVisibility(true);
        if shown.Fail? {
          return shown;
        }
      }
      var _ := dev.Call(SetCurrent, [0, index, 0]);
      return Pass;
    }

    /** `onboard_profile_save(data)` for the working profile. */
    method SaveProfile(data: seq<seq<byte>>) returns (r: Outcome)
      requires Valid() && 1 <= dest <= caps.numProfiles
      modifies dev
      ensures (r, dev.mouse) == Save(old(dev.mouse), caps.pageSize, profileList, pageLayout, dest, data)
    {
      if profileList[dest - 1].page != dest {
        return Fail(MemoryLayoutError);
      }
      if |data| == 0 {
        return Fail(MissingPage);
      }
      var row := pageLayout[dest];
      if |row| == 0 {
        return Fail(LayoutIndex);
      }
      r := WriteMemoryPage(row[0], data[0], true);
      if r.Fail? {
        return;
      }
      ghost var m1 := dev.mouse;
      var i := 1;
      while i < |data|
        invariant 1 <= i <= |data|
        invariant SaveMacros(dev.mouse, caps.pageSize, row, data, i) == SaveMacros(m1, caps.pageSize, row, data, 1)
        decreases |data| - i
      {
        if i >= |row| {
          return Fail(LayoutIndex);
        }
        r := WriteMemoryPage(row[i], data[i], false);
        if r.Fail? {
          return;
        }
        i := i + 1;
      }
      return Pass;
    }

    /** `calc_page_layout()` */
    static method CalcPageLayout(profiles: nat, pages: nat, slots: seq<Slot>) returns (r: Result<seq<seq<int>>>)
      requires |slots| == profiles
      ensures r == PageLayout(profiles, pages, Primaries(slots))
    {
      if profiles == 0 {
        return Err(ZeroProfiles);
      }
      var k := TruncDiv(pages - profiles - 1, profiles);
      assert k == PagesPer(profiles, pages);
      var ret: seq<seq<int>> := [[]];
      var i := 0;
      while i < profiles
        invariant 0 <= i <= profiles
        invariant |ret| == i + 1 && ret[0] == []
        invariant forall j :: 0 <= j < i ==> ret[j + 1] == LayoutRow(profiles, k, j, slots[j].page)
      {
        var row := [slots[i].page] + Span(profiles + i * k + 1, profiles + i * k + k + 1);
        ret := ret + [row];
        i := i + 1;
      }
      var want := PageLayout(profiles, pages, Primaries(slots)).value;
      forall j | 1 <= j < |ret|
        ensures ret[j] == want[j]
      {
        LayoutRowAt(profiles, pages, Primaries(slots), j);
      }
      assert |want| == |ret| && want[0] == ret[0];
      assert ret == want;
      return Ok(ret);
    }
  }
}
