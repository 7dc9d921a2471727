/** The HID++ 2.0 transport of libs/LogiHPP20.py: feature requests framed
    and written to the device, the echo check on the reply, the lookup of a
    feature's index through the root feature, and the device name read in
    fragments.

    The device is a reply function: for each report written, the bytes the
    long port reads back, empty when the read times out. The functions below
    give, for a request, its result and the reports it writes in order. */
module Hidpp20 {
  import opened Wrappers
  import opened Bytes
  import opened HidppFrame

  /** Feature 0x0005, the device name. */
  const DeviceName: u16 := 0x0005

  /** What the long port reads back after a report is written. */
  type Answer = Report -> seq<byte>

  /** A read gives a whole 20-byte long report, or nothing on a timeout. */
  ghost predicate LongReplies(answer: Answer)
  {
    forall r :: |answer(r)| == 0 || |answer(r)| == 20
  }

  /** The four bytes a reply must start with: the report's first four, with
      report id 0x11 whichever port the report went to. */
  function EchoHeader(report: Report): seq<byte>
    requires |report.bytes| >= 4
  {
    report.bytes[0 := 0x11][..4]
  }

  /** `ping_device(data, read_back)`: the reply, or `None` when it does not
      echo the request's header; without `read_back` nothing is read and the
      reply is empty. Like `Outgoing`, it needs a first byte when there is a
      short port; callers always send a full header. */
  function Ping(shortPort: bool, answer: Answer, data: seq<byte>, readBack: bool): (r: Option<seq<byte>>)
    requires shortPort ==> |data| >= 1
    ensures var report := Outgoing(shortPort, data);
            var out := answer(report);
            (readBack ==> (r.Some? <==> |out| >= 4 && out[..4] == EchoHeader(report)))
            && (r.Some? ==> r.value == if readBack then out else [])
  {
    if !readBack then Some([])
    else
      var report := Outgoing(shortPort, data);
      var out := answer(report);
      if EchoHeader(report) != out[..Min(4, |out|)] then None else Some(out)
  }

  /** A request frame is answered exactly when the reply starts with report
      id 0x11 and the frame's device index, feature index and function byte,
      on either port. */
  lemma EchoOfFrame(shortPort: bool, answer: Answer, device: byte, index: byte, fn: nat, params: seq<byte>)
    requires fn < 16
    ensures var report := Outgoing(shortPort, Frame(device, index, fn, params));
            var out := answer(report);
            var accepted := Ping(shortPort, answer, Frame(device, index, fn, params), true).Some?;
            accepted <==> |out| >= 4 && out[..4] == [0x11, device, index, fn * 16 + Swid]
  {
    var f := Frame(device, index, fn, params);
    var report := Outgoing(shortPort, f);
    PortChoice(shortPort, f);
    if report.short {
      assert report.bytes[..|f|] == f;
      assert report.bytes[..4] == f[..4];
    } else {
      LongFrame(device, index, fn, params);
    }
    assert EchoHeader(report) == [0x11, device, index, fn * 16 + Swid];
  }

  /** The lookup of the root feature: index 0, found without a request. */
  function RootIndex(): (r: (Result<int>, seq<Report>))
  {
    (Ok(0), [])
  }

  /** `call_feature(feature, fn, params, read_back)` once `lookup`, the
      result of `find_feature_index(feature)` and the reports it wrote, is
      known: `None` without a request when the feature is absent (-1),
      otherwise the reply to the request frame. */
  function CallAt(shortPort: bool, answer: Answer, device: byte, lookup: (Result<int>, seq<Report>),
                  fn: nat, params: seq<byte>, readBack: bool): (r: (Result<Option<Option<seq<byte>>>>, seq<Report>))
    requires fn < 16 && (lookup.0.Ok? ==> -1 <= lookup.0.value < 0x100)
  {
    var (index, sent) := lookup;
    if index.Err? then (Err(index.error), sent)
    else if index.value == -1 then (Ok(None), sent)
    else
      var f := Frame(device, index.value, fn, params);
      (Ok(Some(Ping(shortPort, answer, f, readBack))), sent + [Outgoing(shortPort, f)])
  }

  /** `find_feature_index(feature)`: the index of a feature, -1 when the
      device does not have it, and the reports written to find out. A
      non-empty answer to the root request (a `call_feature` on feature 0)
      is followed by the same request again, whose reply byte 4 is the index
      (0 meaning absent). */
  function FeatureIndex(shortPort: bool, answer: Answer, device: byte, feature: u16): (r: (Result<int>, seq<Report>))
    ensures r.0.Ok? ==> -1 <= r.0.value < 0x100
  {
    if feature == 0 then RootIndex()
    else
      var (first, sent) := CallAt(shortPort, answer, device, RootIndex(), 0, BE16(feature), true);
      var reply := Flat(first).value;
      if reply.None? || reply.value == [] then (Ok(-1), sent)
      else
        var (second, again) := CallAt(shortPort, answer, device, RootIndex(), 0, BE16(feature), true);
        var out := Flat(second).value;
        if out.None? then (Err(NoReply), sent + again)
        else if |out.value| < 5 then (Err(ShortData), sent + again)
        else (Ok(if out.value[4] > 0 then out.value[4] as int else -1), sent + again)
  }

  /** `call_feature(feature, fn, params, read_back)`. The root feature needs
      no lookup: its request goes out at once. */
  function Call(shortPort: bool, answer: Answer, device: byte, feature: u16, fn: nat,
                params: seq<byte>, readBack: bool): (r: (Result<Option<Option<seq<byte>>>>, seq<Report>))
    requires fn < 16
    ensures feature == 0 ==>
              r == (Ok(Some(Ping(shortPort, answer, Frame(device, 0, fn, params), readBack))),
                    [Outgoing(shortPort, Frame(device, 0, fn, params))])
  {
    var lookup := FeatureIndex(shortPort, answer, device, feature);
    assert feature == 0 ==> lookup.1 + [Outgoing(shortPort, Frame(device, 0, fn, params))]
                            == [Outgoing(shortPort, Frame(device, 0, fn, params))];
    CallAt(shortPort, answer, device, lookup, fn, params, readBack)
  }

  /** What `call_feature` hands back: `None` both for a feature the device
      lacks and for a reply that does not echo the request. */
  function Flat(r: Result<Option<Option<seq<byte>>>>): (f: Result<Option<seq<byte>>>)
    ensures f.Ok? == r.Ok?
  {
    match r
    case Err(e) => Err(e)
    case Ok(None) => Ok(None)
    case Ok(Some(out)) => Ok(out)
  }

  /** The lookup of a feature other than the root in terms of the device's
      answer to the root request: a dropped or empty answer means the feature
      is absent after one request; otherwise the request is written twice and
      byte 4 of the answer, when positive, is the index. */
  lemma FeatureIndexFromRoot(shortPort: bool, answer: Answer, device: byte, feature: u16)
    requires feature != 0
    ensures var report := Outgoing(shortPort, Frame(device, 0, 0, BE16(feature)));
            var out := answer(report);
            var echoed := |out| >= 4 && out[..4] == [0x11, device, 0, Swid];
            var r := FeatureIndex(shortPort, answer, device, feature);
            (!echoed ==> r == (Ok(-1), [report]))
            && (echoed && |out| == 4 ==> r == (Err(ShortData), [report, report]))
            && (echoed && |out| >= 5 ==> r == (Ok(if out[4] > 0 then out[4] else -1), [report, report]))
  {
    var report := Outgoing(shortPort, Frame(device, 0, 0, BE16(feature)));
    var out := answer(report);
    EchoOfFrame(shortPort, answer, device, 0, 0, BE16(feature));
    var root := CallAt(shortPort, answer, device, RootIndex(), 0, BE16(feature), true);
    assert root.1 == [report];
    if |out| >= 4 && out[..4] == [0x11, device, 0, Swid] {
      assert Flat(root.0) == Ok(Some(out));
      assert root.1 + root.1 == [report, report];
    }
  }

  /** `call_feature` on a feature the device lacks writes only the lookup's
      reports and gives `None`; on one it has, it writes one request more,
      the frame with the feature's index, and gives the reply to it. */
  lemma CallRequest(shortPort: bool, answer: Answer, device: byte, feature: u16, fn: nat,
                    params: seq<byte>, readBack: bool)
    requires fn < 16
    ensures var (index, sent) := FeatureIndex(shortPort, answer, device, feature);
            var r := Call(shortPort, answer, device, feature, fn, params, readBack);
            (index == Ok(-1) ==> r == (Ok(None), sent))
            && (index.Ok? && index.value >= 0 ==>
                  |r.1| == |sent| + 1 && r.1[..|sent|] == sent
                  && r.1[|sent|] == Outgoing(shortPort, Frame(device, index.value, fn, params))
                  && Flat(r.0) == Ok(Ping(shortPort, answer, Frame(device, index.value, fn, params), readBack)))
  {
    var (index, sent) := FeatureIndex(shortPort, answer, device, feature);
    var r := Call(shortPort, answer, device, feature, fn, params, readBack);
    if index.Ok? && index.value >= 0 {
      assert r.1 == sent + [Outgoing(shortPort, Frame(device, index.value, fn, params))];
      assert r.1[..|sent|] == sent;
    }
  }

  /** `has_feature(feature)`: whether the lookup found an index. */
  function Supported(shortPort: bool, answer: Answer, device: byte, feature: u16): (r: (Result<bool>, seq<Report>))
  {
    var (index, sent) := FeatureIndex(shortPort, answer, device, feature);
    if index.Err? then (Err(index.error), sent) else (Ok(index.value >= 0), sent)
  }

  /** A feature other than the root is supported exactly when the device
      echoes the root request with a positive byte 4. */
  lemma SupportedIff(shortPort: bool, answer: Answer, device: byte, feature: u16)
    requires feature != 0
    ensures var out := answer(Outgoing(shortPort, Frame(device, 0, 0, BE16(feature))));
            var echoed := |out| >= 4 && out[..4] == [0x11, device, 0, Swid];
            var r := Supported(shortPort, answer, device, feature).0;
            (r == Ok(true) <==> echoed && |out| >= 5 && out[4] > 0)
            && (r.Err? <==> echoed && |out| == 4)
  {
    FeatureIndexFromRoot(shortPort, answer, device, feature);
  }

  /** A device with 20-byte replies answers every echoed request with 20
      bytes. */
  lemma ReplyLength(shortPort: bool, answer: Answer, device: byte, feature: u16, fn: nat, params: seq<byte>)
    requires LongReplies(answer) && fn < 16
    ensures var r := Flat(Call(shortPort, answer, device, feature, fn, params, true).0);
            r.Ok? && r.value.Some? ==> |r.value.value| == 20
  {
    var (index, sent) := FeatureIndex(shortPort, answer, device, feature);
    if index.Ok? && index.value >= 0 {
      var f := Frame(device, index.value, fn, params);
      var report := Outgoing(shortPort, f);
      assert |answer(report)| == 0 || |answer(report)| == 20;
    }
  }

  /** The fragment requests of `get_device_name`: for each offset, the
      reply and the reports written to get it. */
  type Fetch = byte -> (Result<Option<seq<byte>>>, seq<Report>)

  /** A device's fragment requests: function 1 of feature 0x0005, with the
      offset as the one parameter. */
  function Fragments(shortPort: bool, answer: Answer, device: byte): Fetch
  {
    at => var call := Call(shortPort, answer, device, DeviceName, 1, [at], true);
          (Flat(call.0), call.1)
  }

  /** Every answered fragment is empty or carries name bytes after its
      4-byte header, so that each pass of the fragment loop either stops or
      lengthens the name. */
  ghost predicate Progress(fetch: Fetch)
  {
    forall at: byte :: fetch(at).0.Ok? && fetch(at).0.value.Some? ==>
      |fetch(at).0.value.value| == 0 || |fetch(at).0.value.value| > 4
  }

  /** Every answered fragment is a whole 20-byte report. */
  ghost predicate Whole(fetch: Fetch)
  {
    Progress(fetch)
    && forall at: byte :: fetch(at).0.Ok? && fetch(at).0.value.Some? ==> |fetch(at).0.value.value| == 20
  }

  /** An answered fragment echoes its request, so it has at least 4 bytes:
      the loop makes progress exactly when no answered fragment is a bare
      4-byte header. */
  lemma ProgressIff(shortPort: bool, answer: Answer, device: byte)
    ensures Progress(Fragments(shortPort, answer, device))
            <==> forall at: byte :: Fragments(shortPort, answer, device)(at).0.Ok?
                                    && Fragments(shortPort, answer, device)(at).0.value.Some?
                                    ==> |Fragments(shortPort, answer, device)(at).0.value.value| != 4
  {
    forall at: byte
      ensures var f := Fragments(shortPort, answer, device)(at).0;
              f.Ok? && f.value.Some? ==> |f.value.value| >= 4
    {
      var (index, sent) := FeatureIndex(shortPort, answer, device, DeviceName);
      if index.Ok? && index.value >= 0 {
        var f := Frame(device, index.value, 1, [at]);
        var out := Ping(shortPort, answer, f, true);
        assert Call(shortPort, answer, device, DeviceName, 1, [at], true).0 == Ok(Some(out));
      }
    }
  }

  /** A device with 20-byte replies makes the fragment loop progress. */
  lemma FragmentsProgress(shortPort: bool, answer: Answer, device: byte)
    requires LongReplies(answer)
    ensures Progress(Fragments(shortPort, answer, device))
  {
    FragmentsWhole(shortPort, answer, device);
  }

  /** A device with 20-byte replies sends whole fragments. */
  lemma FragmentsWhole(shortPort: bool, answer: Answer, device: byte)
    requires LongReplies(answer)
    ensures Whole(Fragments(shortPort, answer, device))
  {
    forall at: byte
      ensures var f := Fragments(shortPort, answer, device)(at).0;
              f.Ok? && f.value.Some? ==> |f.value.value| == 20
    {
      ReplyLength(shortPort, answer, device, DeviceName, 1, [at]);
    }
  }

  /** What one pass of the fragment loop of `get_device_name` does: the
      loop stops with a result, or the name grows. */
  datatype Pass =
    | Stop(result: Result<Option<seq<byte>>>, sent: seq<Report>)
    | Grown(sent: seq<Report>, name: seq<byte>)

  /** One pass of the fragment loop on a name still shorter than `length`:
      the request for the fragment at the name's length; an unanswered
      fragment stops the loop with `None`, an answered one adds the reply's
      bytes from 4 on, cut to what is still missing. */
  function NamePass(fetch: Fetch, length: byte, name: seq<byte>): (p: Pass)
    requires |name| < length
    ensures p.Grown? ==> |name| <= |p.name| <= length && p.name[..|name|] == name
    ensures p.Grown? && Progress(fetch) ==> |name| < |p.name|
  {
    var (out, sent) := fetch(|name|);
    if out.Err? then Stop(Err(out.error), sent)
    else if out.value.None? || out.value.value == [] then Stop(Ok(None), sent)
    else Grown(sent, name + Slice(out.value.value, 4, 4 + length - |name|))
  }

  /** The fragment loop of `get_device_name` ends when started from `name`:
      the name is complete, or the next pass stops the loop, or it lengthens
      the name and the loop ends from there. Only the offsets the loop
      actually requests matter. */
  ghost predicate Ends(fetch: Fetch, length: byte, name: seq<byte>)
    requires |name| <= length
    decreases length - |name|
  {
    |name| >= length
    || NamePass(fetch, length, name).Stop?
    || (|name| < |NamePass(fetch, length, name).name| && Ends(fetch, length, NamePass(fetch, length, name).name))
  }

  /** A device on which no answered fragment is a bare header lets the loop
      end from any name. */
  lemma {:induction false} ProgressEnds(fetch: Fetch, length: byte, name: seq<byte>)
    requires Progress(fetch) && |name| <= length
    ensures Ends(fetch, length, name)
    decreases length - |name|
  {
    if |name| < length {
      var p := NamePass(fetch, length, name);
      if p.Grown? {
        ProgressEnds(fetch, length, p.name);
      }
    }
  }

  /** A 20-byte fragment with name bytes 0x41 after the echoed header. */
  const FullFragment: seq<byte> :=
    [0x11, 1, 0x1F, 0, 0x41, 0x41, 0x41, 0x41, 0x41, 0x41, 0x41, 0x41,
     0x41, 0x41, 0x41, 0x41, 0x41, 0x41, 0x41, 0x41]

  /** A device that answers the fragment at offset 0 in full and every other
      offset with a bare header. */
  function FirstFragmentOnly(at: byte): (Result<Option<seq<byte>>>, seq<Report>)
  {
    if at == 0 then (Ok(Some(FullFragment)), []) else (Ok(Some(FullFragment[..4])), [])
  }

  /** On that device with a 16-byte name the loop ends after its first pass,
      although a bare header is answered at offsets it never requests. */
  lemma EndsWithoutProgress()
    ensures !Progress(FirstFragmentOnly)
    ensures Ends(FirstFragmentOnly, 16, [])
    ensures NameFrom(FirstFragmentOnly, 16, []).0 == Ok(Some(FullFragment[4..]))
  {
    assert |FirstFragmentOnly(1).0.value.value| == 4;
    assert Slice(FullFragment, 4, 20) == FullFragment[4..];
  }

  /** The fragment loop of `get_device_name` from a name read so far, and
      the reports it writes. */
  function NameFrom(fetch: Fetch, length: byte, name: seq<byte>): (r: (Result<Option<seq<byte>>>, seq<Report>))
    requires |name| <= length && Ends(fetch, length, name)
    ensures r.0.Ok? && r.0.value.Some? ==>
              |r.0.value.value| == length && r.0.value.value[..|name|] == name
    decreases length - |name|
  {
    if |name| >= length then (Ok(Some(name)), [])
    else
      match NamePass(fetch, length, name)
      case Stop(result, sent) => (result, sent)
      case Grown(sent, name') =>
        var (rest, more) := NameFrom(fetch, length, name');
        (rest, sent + more)
  }

  /** The loop from a name shorter than `length` is one pass, then the loop
      from the grown name: what is left to write and to return after a pass
      is what the loop from the grown name writes and returns. */
  lemma NameFromPass(fetch: Fetch, length: byte, name: seq<byte>, before: seq<Report>, after: seq<Report>,
                     start: seq<Report>, total: (Result<Option<seq<byte>>>, seq<Report>))
    requires |name| < length && Ends(fetch, length, name)
    requires NameFrom(fetch, length, name).0 == total.0
    requires before + NameFrom(fetch, length, name).1 == start + total.1
    requires after == before + NamePass(fetch, length, name).sent
    ensures var p := NamePass(fetch, length, name);
            (p.Stop? ==> p.result == total.0 && after == start + total.1)
            && (p.Grown? ==> Ends(fetch, length, p.name) && NameFrom(fetch, length, p.name).0 == total.0
                             && after + NameFrom(fetch, length, p.name).1 == start + total.1)
  {
    var p := NamePass(fetch, length, name);
    if p.Grown? {
      var rest := NameFrom(fetch, length, p.name);
      assert NameFrom(fetch, length, name) == (rest.0, p.sent + rest.1);
      assert before + (p.sent + rest.1) == (before + p.sent) + rest.1;
    }
  }

  /** A fragment answered with a bare 4-byte header adds nothing to the
      name: the pass writes its request and leaves the name as it was, so
      the next pass makes the same request, and so on without end. */
  lemma BareEchoStalls(fetch: Fetch, length: byte, name: seq<byte>)
    requires |name| < length
    requires fetch(|name|).0.Ok? && fetch(|name|).0.value.Some? && |fetch(|name|).0.value.value| == 4
    ensures NamePass(fetch, length, name) == Grown(fetch(|name|).1, name)
    ensures !Progress(fetch)
  {
    assert Slice(fetch(|name|).0.value.value, 4, 4 + length - |name|) == [];
  }

  /** A device that answers function 1 of any feature with the bare 4-byte
      header, and every other request with a 20-byte reply whose byte 4 is
      1: feature 0x0005 at index 1, a name of one byte. */
  function StallingAnswer(report: Report): (out: seq<byte>)
    ensures |report.bytes| >= 4 ==> |out| >= 4 && out[..4] == EchoHeader(report)
  {
    if |report.bytes| < 4 then []
    else if report.bytes[3] == 16 + Swid then EchoHeader(report)
    else EchoHeader(report) + [1] + seq(15, _ => 0)
  }

  /** On that device feature 0x0005 is at index 1. */
  lemma StallingLookup()
    ensures FeatureIndex(false, StallingAnswer, 1, DeviceName).0 == Ok(1)
  {
    var root := Outgoing(false, Frame(1, 0, 0, BE16(DeviceName)));
    LongFrame(1, 0, 0, BE16(DeviceName));
    assert root.bytes[3] == Swid;
    FeatureIndexFromRoot(false, StallingAnswer, 1, DeviceName);
  }

  /** On that device the first fragment comes back as a bare header. */
  lemma StallingFragment()
    ensures var f := Fragments(false, StallingAnswer, 1)(0).0;
            f.Ok? && f.value.Some? && |f.value.value| == 4
  {
    StallingLookup();
    var report := Outgoing(false, Frame(1, 1, 1, [0]));
    LongFrame(1, 1, 1, [0]);
    assert StallingAnswer(report) == EchoHeader(report);
    CallRequest(false, StallingAnswer, 1, DeviceName, 1, [0], true);
  }

  /** On that device `get_device_name()` learns a one-byte name and then
      repeats its first fragment request forever. */
  lemma StallingDevice()
    ensures NameLength(false, StallingAnswer, 1).0 == Ok(Some(1))
    ensures NamePass(Fragments(false, StallingAnswer, 1), 1, []).Grown?
    ensures NamePass(Fragments(false, StallingAnswer, 1), 1, []).name == []
    ensures !Ends(Fragments(false, StallingAnswer, 1), 1, [])
  {
    StallingLookup();
    var report := Outgoing(false, Frame(1, 1, 0, [0]));
    LongFrame(1, 1, 0, [0]);
    assert StallingAnswer(report)[4] == 1;
    CallRequest(false, StallingAnswer, 1, DeviceName, 0, [0], true);
    StallingFragment();
    BareEchoStalls(Fragments(false, StallingAnswer, 1), 1, []);
  }

  /** One pass of the fragment loop with a length check on the fragment: an
      answered fragment with no bytes after its header stops the loop with
      an error instead of being added. */
  function NamePassChecked(fetch: Fetch, length: byte, name: seq<byte>): (p: Pass)
    requires |name| < length
    ensures p.Grown? ==> |name| < |p.name| <= length && p.name[..|name|] == name
  {
    var (out, sent) := fetch(|name|);
    if out.Err? then Stop(Err(out.error), sent)
    else if out.value.None? || out.value.value == [] then Stop(Ok(None), sent)
    else if |out.value.value| <= 4 then Stop(Err(ShortData), sent)
    else Grown(sent, name + Slice(out.value.value, 4, 4 + length - |name|))
  }

  /** The fragment loop with the length check: it ends on every device, and
      a name it returns has the length the device gave. */
  function NameFromChecked(fetch: Fetch, length: byte, name: seq<byte>): (r: (Result<Option<seq<byte>>>, seq<Report>))
    requires |name| <= length
    ensures r.0.Ok? && r.0.value.Some? ==>
              |r.0.value.value| == length && r.0.value.value[..|name|] == name
    decreases length - |name|
  {
    if |name| >= length then (Ok(Some(name)), [])
    else
      match NamePassChecked(fetch, length, name)
      case Stop(result, sent) => (result, sent)
      case Grown(sent, name') =>
        var (rest, more) := NameFromChecked(fetch, length, name');
        (rest, sent + more)
  }

  /** Wherever the loop as written ends, the checked loop gives the same
      name and writes the same reports. */
  lemma {:induction false} CheckedAgrees(fetch: Fetch, length: byte, name: seq<byte>)
    requires |name| <= length && Ends(fetch, length, name)
    ensures NameFromChecked(fetch, length, name) == NameFrom(fetch, length, name)
    decreases length - |name|
  {
    if |name| < length {
      var p := NamePass(fetch, length, name);
      assert NamePassChecked(fetch, length, name) == p;
      if p.Grown? {
        CheckedAgrees(fetch, length, p.name);
      }
    }
  }

  /** The first part of `get_device_name()`: `None` when the device lacks
      feature 0x0005, otherwise the name's length, byte 4 of the reply to
      function 0 of that feature. */
  function NameLength(shortPort: bool, answer: Answer, device: byte): (r: (Result<Option<byte>>, seq<Report>))
    ensures r.0.Ok? && r.0.value.Some? ==>
              var out := Flat(Call(shortPort, answer, device, DeviceName, 0, [0], true).0);
              out.Ok? && out.value.Some? && |out.value.value| >= 5 && out.value.value[4] == r.0.value.value
  {
    var (has, sent) := Supported(shortPort, answer, device, DeviceName);
    if has.Err? then (Err(has.error), sent)
    else if !has.value then (Ok(None), sent)
    else
      var (call, sent') := Call(shortPort, answer, device, DeviceName, 0, [0], true);
      var out := Flat(call);
      if out.Err? then (Err(out.error), sent + sent')
      else if out.value.None? then (Err(NoReply), sent + sent')
      else if |out.value.value| < 5 then (Err(ShortData), sent + sent')
      else (Ok(Some(out.value.value[4])), sent + sent')
  }

  /** The fragment loop of `get_device_name()` ends on this device, for the
      length it reports. */
  ghost predicate NameEnds(shortPort: bool, answer: Answer, device: byte)
  {
    NameLength(shortPort, answer, device).0.Ok? && NameLength(shortPort, answer, device).0.value.Some?
    ==> Ends(Fragments(shortPort, answer, device), NameLength(shortPort, answer, device).0.value.value, [])
  }

  /** `get_device_name()`: `None` when the device lacks feature 0x0005 or a
      fragment is not answered; otherwise the name, exactly as long as the
      device said. */
  function DeviceNameOf(shortPort: bool, answer: Answer, device: byte): (r: (Result<Option<seq<byte>>>, seq<Report>))
    requires NameEnds(shortPort, answer, device)
    ensures r.0.Ok? && r.0.value.Some? ==>
              var length := NameLength(shortPort, answer, device).0;
              length.Ok? && length.value.Some? && |r.0.value.value| == length.value.value
  {
    var (length, sent) := NameLength(shortPort, answer, device);
    if length.Err? then (Err(length.error), sent)
    else if length.value.None? then (Ok(None), sent)
    else
      var (name, more) := NameFrom(Fragments(shortPort, answer, device), length.value.value, []);
      (name, sent + more)
  }

  /** `get_device_name()` in its two parts: the length, then the fragment
      loop. */
  lemma DeviceNameParts(shortPort: bool, answer: Answer, device: byte)
    requires NameEnds(shortPort, answer, device)
    ensures var (length, sent) := NameLength(shortPort, answer, device);
            var r := DeviceNameOf(shortPort, answer, device);
            (length.Err? ==> r == (Err(length.error), sent))
            && (length == Ok(None) ==> r == (Ok(None), sent))
            && (length.Ok? && length.value.Some? ==>
                  var rest := NameFrom(Fragments(shortPort, answer, device), length.value.value, []);
                  r == (rest.0, sent + rest.1))
  {
  }

  /** Fragment `j` of a name of `length` bytes came back whole and supplied
      the name's bytes from `j` on. */
  predicate FragmentRead(fetch: Fetch, length: byte, n: seq<byte>, j: nat)
    requires |n| == length && j < length
  {
    var f := fetch(j).0;
    f.Ok? && f.value.Some? && |f.value.value| == 20
    && n[j..Min(j + 16, length)] == f.value.value[4..4 + Min(16, length - j)]
  }

  /** The first fragment a name read from `name` on is made of: answered,
      and the rest of the name is read after it. */
  lemma FragmentAt(fetch: Fetch, length: byte, name: seq<byte>, n: seq<byte>)
    requires Whole(fetch) && |name| < length && Ends(fetch, length, name)
    requires NameFrom(fetch, length, name).0 == Ok(Some(n))
    ensures |n| == length
    ensures FragmentRead(fetch, length, n, |name|)
    ensures NamePass(fetch, length, name).Grown?
    ensures NameFrom(fetch, length, NamePass(fetch, length, name).name).0 == Ok(Some(n))
  {
    var p := NamePass(fetch, length, name);
    var out := fetch(|name|).0;
    var part := Slice(out.value.value, 4, 4 + length - |name|);
    assert p.name == name + part;
    assert n[..|p.name|] == p.name;
    assert n[|name|..|p.name|] == part;
  }

  /** A name read from `name` on is made of the fragments at every multiple
      of 16 from `|name|` up to its length, each answered; so any fragment
      left unanswered means no name. */
  lemma {:induction false} NameIsFragments(fetch: Fetch, length: byte, name: seq<byte>, n: seq<byte>)
    requires Whole(fetch) && |name| <= length && |name| % 16 == 0 && Ends(fetch, length, name)
    requires NameFrom(fetch, length, name).0 == Ok(Some(n))
    ensures |n| == length
    ensures forall j :: |name| <= j < length && j % 16 == 0 ==> FragmentRead(fetch, length, n, j)
    decreases length - |name|
  {
    if |name| < length {
      FragmentAt(fetch, length, name, n);
      var name' := NamePass(fetch, length, name).name;
      if |name'| < length {
        NameIsFragments(fetch, length, name', n);
      }
    }
  }

  /** Reports written in three runs are the first run, then the other two;
      stated apart so that the device-name proof need not regroup the
      concatenation among its large terms. */
  lemma Appended(a: seq<Report>, b: seq<Report>, c: seq<Report>)
    ensures (a + b) + c == a + (b + c)
  {
  }

  /** The transport object: its ports, the device index requests address,
      and the reports written so far. */
  class Hidpp20 {
    const shortPort: bool
    const answer: Answer
    const deviceIndex: byte
    var written: seq<Report>

    constructor (shortPort: bool, answer: Answer, deviceIndex: byte)
      ensures this.shortPort == shortPort && this.answer == answer
      ensures this.deviceIndex == deviceIndex && written == []
    {
      this.shortPort := shortPort;
      this.answer := answer;
      this.deviceIndex := deviceIndex;
      written := [];
    }

    /** `ping_device(data, read_back)` */
    method PingDevice(data: seq<byte>, readBack: bool) returns (r: Option<seq<byte>>)
      requires shortPort ==> |data| >= 1
      modifies this
      ensures r == Ping(shortPort, answer, data, readBack)
      ensures written == old(written) + [Outgoing(shortPort, data)]
    {
      var buf: seq<byte>;
      var report: Report;
      if shortPort && data[0] == 0x10 && |data| <= 7 {
        buf := Pad(data, 7);
        report := Report(true, buf);
      } else {
        buf := Pad(data, 20);
        buf := buf[0 := 0x11];
        report := Report(false, buf);
      }
      written := written + [report];
      buf := buf[0 := 0x11];
      var out: seq<byte> := if readBack then answer(report) else [];
      if readBack && buf[..4] != out[..Min(4, |out|)] {
        return None;
      }
      return Some(out);
    }

    /** `find_feature_index(feature)` */
    method FindFeatureIndex(feature: u16) returns (r: Result<int>)
      modifies this
      ensures r == FeatureIndex(shortPort, answer, deviceIndex, feature).0
      ensures written == old(written) + FeatureIndex(shortPort, answer, deviceIndex, feature).1
      decreases if feature == 0 then 0 else 2
    {
      if feature == 0 {
        return Ok(0);
      }
      var first := CallFeature(0, 0, BE16(feature), true);
      var reply := Flat(first).value;
      if reply.None? || reply.value == [] {
        return Ok(-1);
      }
      var second := CallFeature(0, 0, BE16(feature), true);
      var out := Flat(second).value;
      if out.None? {
        return Err(NoReply);
      }
      if |out.value| < 5 {
        return Err(ShortData);
      }
      return Ok(if out.value[4] > 0 then out.value[4] as int else -1);
    }

    /** `call_feature(feature, fn, params, read_back)` */
    method CallFeature(feature: u16, fn: nat, params: seq<byte>, readBack: bool)
      returns (r: Result<Option<Option<seq<byte>>>>)
      requires fn < 16
      modifies this
      ensures r == Call(shortPort, answer, deviceIndex, feature, fn, params, readBack).0
      ensures written == old(written) + Call(shortPort, answer, deviceIndex, feature, fn, params, readBack).1
      decreases if feature == 0 then 1 else 3
    {
      var index := FindFeatureIndex(feature);
      if index.Err? {
        return Err(index.error);
      }
      if index.value == -1 {
        return Ok(None);
      }
      var data := Frame(deviceIndex, index.value, fn, params);
      var out := PingDevice(data, readBack);
      return Ok(Some(out));
    }

    /** `has_feature(feature)` */
    method HasFeature(feature: u16) returns (r: Result<bool>)
      modifies this
      ensures r == Supported(shortPort, answer, deviceIndex, feature).0
      ensures written == old(written) + Supported(shortPort, answer, deviceIndex, feature).1
    {
      var index := FindFeatureIndex(feature);
      if index.Err? {
        return Err(index.error);
      }
      return Ok(index.value >= 0);
    }

    /** `get_device_name()`, the name as the bytes the device sends. */
    method GetDeviceName() returns (r: Result<Option<seq<byte>>>)
      requires NameEnds(shortPort, answer, deviceIndex)
      modifies this
      ensures r == DeviceNameOf(shortPort, answer, deviceIndex).0
      ensures written == old(written) + DeviceNameOf(shortPort, answer, deviceIndex).1
    {
      DeviceNameParts(shortPort, answer, deviceIndex);
      ghost var w0 := written;
      ghost var sent := NameLength(shortPort, answer, deviceIndex).1;
      var length := ReadNameLength();
      if length.Err? {
        return Err(length.error);
      }
      if length.value.None? {
        return Ok(None);
      }
      ghost var rest := NameFrom(Fragments(shortPort, answer, deviceIndex), length.value.value, []);
      r := ReadName(length.value.value);
      assert r == rest.0;
      assert written == (w0 + sent) + rest.1;
      assert DeviceNameOf(shortPort, answer, deviceIndex) == (rest.0, sent + rest.1);
      Appended(w0, sent, rest.1);
    }

    /** The first part of `get_device_name()`, up to the name's length. */
    method ReadNameLength() returns (r: Result<Option<byte>>)
      modifies this
      ensures r == NameLength(shortPort, answer, deviceIndex).0
      ensures written == old(written) + NameLength(shortPort, answer, deviceIndex).1
    {
      var has := HasFeature(DeviceName);
      if has.Err? {
        return Err(has.error);
      }
      if !has.value {
        return Ok(None);
      }
      var call := CallFeature(DeviceName, 0, [0], true);
      var out := Flat(call);
      if out.Err? {
        return Err(out.error);
      }
      if out.value.None? {
        return Err(NoReply);
      }
      if |out.value.value| < 5 {
        return Err(ShortData);
      }
      return Ok(Some(out.value.value[4]));
    }

    /** The fragment loop of `get_device_name()` for a name of `length`
        bytes. */
    method ReadName(length: byte) returns (r: Result<Option<seq<byte>>>)
      requires Ends(Fragments(shortPort, answer, deviceIndex), length, [])
      modifies this
      ensures r == NameFrom(Fragments(shortPort, answer, deviceIndex), length, []).0
      ensures written == old(written) + NameFrom(Fragments(shortPort, answer, deviceIndex), length, []).1
    {
      ghost var fetch := Fragments(shortPort, answer, deviceIndex);
      var name: seq<byte> := [];
      ghost var start := written;
      ghost var total := NameFrom(fetch, length, []);
      while |name| < length
        invariant |name| <= length && Ends(fetch, length, name)
        invariant NameFrom(fetch, length, name).0 == total.0
        invariant written + NameFrom(fetch, length, name).1 == start + total.1
        decreases length - |name|
      {
        ghost var before := written;
        var done, failed, grown := ReadFragment(length, name);
        NameFromPass(fetch, length, name, before, written, start, total);
        if done {
          return failed;
        }
        name := grown;
      }
      return Ok(Some(name));
    }

    /** One pass of the fragment loop. */
    method ReadFragment(length: byte, name: seq<byte>)
      returns (done: bool, r: Result<Option<seq<byte>>>, name': seq<byte>)
      requires |name| < length
      modifies this
      ensures done == NamePass(Fragments(shortPort, answer, deviceIndex), length, name).Stop?
      ensures done ==> r == NamePass(Fragments(shortPort, answer, deviceIndex), length, name).result
      ensures !done ==> name' == NamePass(Fragments(shortPort, answer, deviceIndex), length, name).name
      ensures written == old(written) + NamePass(Fragments(shortPort, answer, deviceIndex), length, name).sent
    {
      ghost var call := Call(shortPort, answer, deviceIndex, DeviceName, 1, [|name|], true);
      assert Fragments(shortPort, answer, deviceIndex)(|name|) == (Flat(call.0), call.1);
      var frag := CallFeature(DeviceName, 1, [|name|], true);
      var part := Flat(frag);
      if part.Err? {
        return true, Err(part.error), name;
      }
      if part.value.None? || part.value.value == [] {
        return true, Ok(None), name;
      }
      name' := name + Slice(part.value.value, 4, 4 + length - |name|);
      done, r := false, Ok(None);
    }
  }
}
