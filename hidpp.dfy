/** The HID++ 1.0 transport of libs/LogiHPP.py: feature requests framed and
    written to the short or the long port, replies read back without a
    header check, the lookup of a feature's index through the root feature,
    and the search for the device index a device answers on.

    The device is a pair of reply functions, one per port: for each report
    written, the bytes that port reads back (empty when the read times out).
    The functions below give, for a request, its result and the reports it
    writes in order. */
module Hidpp {
  import opened Wrappers
  import opened Bytes
  import opened HidppFrame
  import Hidpp20

  /** What a port reads back after a report is written. */
  type Reader = Report -> seq<byte>

  /** The short registers of the RAP protocol: 0x80 sets, 0x81 gets. */
  const ShortRegs: seq<byte> := [0x80, 0x81]

  /** Feature 0x0001, the feature set, whose index `detect_device_index`
      expects back. */
  const FeatureSet: u16 := 0x0001

  /** `ping_device(data, is_rap_ping)`: the reply as read, with no check of
      its header. It is read from the short port for a RAP request to a
      short register and from the long port otherwise; a device without a
      short port fails the former. Like `Outgoing`, it needs a first byte
      when there is a short port; callers always send a full header. */
  function Ping(shortPort: bool, readShort: Reader, readLong: Reader, data: seq<byte>, rap: bool): (r: Result<seq<byte>>)
    requires shortPort ==> |data| >= 1
  {
    var report := Outgoing(shortPort, data);
    if rap && report.bytes[2] in ShortRegs then
      if shortPort then Ok(readShort(report)) else Err(NoShortPort)
    else Ok(readLong(report))
  }

  /** Which port a reply comes from: the short one exactly for a RAP request
      whose register (byte 2) is a short register, when there is a short
      port. Every reply is handed back as read: whenever the HID++ 2.0
      transport accepts a reply to a request, this one returns the same
      reply, and it also returns replies the former drops for not echoing
      the request. */
  lemma ReplyPort(shortPort: bool, readShort: Reader, readLong: Reader, data: seq<byte>, rap: bool)
    requires shortPort ==> |data| >= 1
    ensures var report := Outgoing(shortPort, data);
            var fromShort := rap && report.bytes[2] in ShortRegs;
            var r := Ping(shortPort, readShort, readLong, data, rap);
            (r.Ok? <==> shortPort || !fromShort)
            && (r.Ok? && fromShort ==> r.value == readShort(report))
            && (!fromShort ==> r == Ok(readLong(report)))
            && (!rap ==> (Hidpp20.Ping(shortPort, readLong, data, true).Some? ==>
                            r == Ok(Hidpp20.Ping(shortPort, readLong, data, true).value)))
  {
  }

  /** The lookup of the root feature: index 0, found without a request. */
  function RootIndex(): (r: (Result<int>, seq<Report>))
  {
    (Ok(0), [])
  }

  /** `call_feature(feature, fn, params)` once `lookup`, the result of
      `find_feature_index(feature)` and the reports it wrote, is known: the
      assertion fails for an absent feature (-1) before any request;
      otherwise the reply to the request frame. */
  function CallAt(shortPort: bool, readShort: Reader, readLong: Reader, device: byte,
                  lookup: (Result<int>, seq<Report>), fn: nat, params: seq<byte>): (r: (Result<seq<byte>>, seq<Report>))
    requires fn < 16 && (lookup.0.Ok? ==> -1 <= lookup.0.value < 0x100)
  {
    var (index, sent) := lookup;
    if index.Err? then (Err(index.error), sent)
    else if index.value == -1 then (Err(UnsupportedFeature), sent)
    else
      var f := Frame(device, index.value, fn, params);
      (Ping(shortPort, readShort, readLong, f, false), sent + [Outgoing(shortPort, f)])
  }

  /** `find_feature_index(feature)`: the index of a feature, -1 when the
      device does not have it, and the reports written to find out: one
      request to the root feature, whose reply byte 4 is the index (0
      meaning absent). */
  function FeatureIndex(shortPort: bool, readShort: Reader, readLong: Reader, device: byte, feature: u16)
    : (r: (Result<int>, seq<Report>))
    ensures r.0.Ok? ==> -1 <= r.0.value < 0x100
  {
    if feature == 0 then RootIndex()
    else
      var (out, sent) := CallAt(shortPort, readShort, readLong, device, RootIndex(), 0, BE16(feature));
      if out.Err? then (Err(out.error), sent)
      else if |out.value| < 5 then (Err(ShortData), sent)
      else (Ok(if out.value[4] > 0 then out.value[4] as int else -1), sent)
  }

  /** `call_feature(feature, fn, params)`. */
  function Call(shortPort: bool, readShort: Reader, readLong: Reader, device: byte, feature: u16, fn: nat,
                params: seq<byte>): (r: (Result<seq<byte>>, seq<Report>))
    requires fn < 16
  {
    CallAt(shortPort, readShort, readLong, device, FeatureIndex(shortPort, readShort, readLong, device, feature), fn, params)
  }

  /** The lookup of a feature other than the root in terms of the long
      port's reply to the one root request: byte 4, when positive, is the
      index; a reply of fewer than 5 bytes is an error, whatever its header. */
  lemma FeatureIndexFromRoot(shortPort: bool, readShort: Reader, readLong: Reader, device: byte, feature: u16)
    requires feature != 0
    ensures var report := Outgoing(shortPort, Frame(device, 0, 0, BE16(feature)));
            var out := readLong(report);
            var r := FeatureIndex(shortPort, readShort, readLong, device, feature);
            (|out| < 5 ==> r == (Err(ShortData), [report]))
            && (|out| >= 5 ==> r == (Ok(if out[4] > 0 then out[4] as int else -1), [report]))
  {
    var report := Outgoing(shortPort, Frame(device, 0, 0, BE16(feature)));
    var root := CallAt(shortPort, readShort, readLong, device, RootIndex(), 0, BE16(feature));
    assert root.0 == Ok(readLong(report));
    assert root.1 == [report];
  }

  /** `call_feature` on a feature the device lacks fails with only the
      lookup's reports written; on one it has, it writes one request more,
      the frame with the feature's index, and gives the long port's reply to
      it. */
  lemma CallRequest(shortPort: bool, readShort: Reader, readLong: Reader, device: byte, feature: u16, fn: nat,
                    params: seq<byte>)
    requires fn < 16
    ensures var (index, sent) := FeatureIndex(shortPort, readShort, readLong, device, feature);
            var r := Call(shortPort, readShort, readLong, device, feature, fn, params);
            (index == Ok(-1) ==> r == (Err(UnsupportedFeature), sent))
            && (index.Ok? && index.value >= 0 ==>
                  var report := Outgoing(shortPort, Frame(device, index.value, fn, params));
                  |r.1| == |sent| + 1 && r.1[..|sent|] == sent && r.1[|sent|] == report
                  && r.0 == Ok(readLong(report)))
  {
    var (index, sent) := FeatureIndex(shortPort, readShort, readLong, device, feature);
    var r := Call(shortPort, readShort, readLong, device, feature, fn, params);
    if index.Ok? && index.value >= 0 {
      var report := Outgoing(shortPort, Frame(device, index.value, fn, params));
      assert r.1 == sent + [report];
      assert r.1[..|sent|] == sent;
    }
  }

  /** `has_feature(feature)`: whether the lookup found an index. */
  function Supported(shortPort: bool, readShort: Reader, readLong: Reader, device: byte, feature: u16)
    : (r: (Result<bool>, seq<Report>))
  {
    var (index, sent) := FeatureIndex(shortPort, readShort, readLong, device, feature);
    if index.Err? then (Err(index.error), sent) else (Ok(index.value >= 0), sent)
  }

  /** A feature other than the root is supported exactly when byte 4 of the
      reply to the root request is positive. */
  lemma SupportedIff(shortPort: bool, readShort: Reader, readLong: Reader, device: byte, feature: u16)
    requires feature != 0
    ensures var out := readLong(Outgoing(shortPort, Frame(device, 0, 0, BE16(feature))));
            var r := Supported(shortPort, readShort, readLong, device, feature).0;
            (r == Ok(true) <==> |out| >= 5 && out[4] > 0)
            && (r.Err? <==> |out| < 5)
  {
    FeatureIndexFromRoot(shortPort, readShort, readLong, device, feature);
  }

  /** The probe of `detect_device_index` at device index `device`: function
      0 of feature 0x0001, answered by a device there when byte 2 of the
      reply is 1. */
  function Probe(shortPort: bool, readShort: Reader, readLong: Reader, device: byte): (r: (Result<bool>, seq<Report>))
    ensures r.0 != Err(DeviceNotFound)
  {
    var (out, sent) := Call(shortPort, readShort, readLong, device, FeatureSet, 0, [0]);
    if out.Err? then (Err(out.error), sent)
    else if |out.value| < 3 then (Err(ShortData), sent)
    else (Ok(out.value[2] == 1), sent)
  }

  /** A probe for every device index, as `Probes` gives it for a device. */
  type Prober = byte -> (Result<bool>, seq<Report>)

  /** The probes of `detect_device_index` on the device with these ports. */
  function Probes(shortPort: bool, readShort: Reader, readLong: Reader): Prober
  {
    (device: byte) => Probe(shortPort, readShort, readLong, device)
  }

  /** `detect_device_index(index_list)`: the first listed index a device
      answers on, an error from the first probe that fails, or the failed
      assertion when none answers; with the reports of every probe made. */
  function Detect(probe: Prober, indexList: seq<byte>): (r: (Result<byte>, seq<Report>))
    ensures r.0.Ok? ==> r.0.value in indexList
  {
    if indexList == [] then (Err(DeviceNotFound), [])
    else
      var (hit, sent) := probe(indexList[0]);
      if hit.Err? then (Err(hit.error), sent)
      else if hit.value then (Ok(indexList[0]), sent)
      else
        var (r, more) := Detect(probe, indexList[1..]);
        (r, sent + more)
  }

  /** Index `k` of the list is the first a device answers on: the probes of
      all the earlier ones succeed and find no device. */
  ghost predicate FirstHit(probe: Prober, indexList: seq<byte>, k: int)
  {
    0 <= k < |indexList|
    && probe(indexList[k]).0 == Ok(true)
    && forall j :: 0 <= j < k ==> probe(indexList[j]).0 == Ok(false)
  }

  /** The index found is the first listed one a device answers on. */
  lemma {:induction false} DetectFindsFirst(probe: Prober, indexList: seq<byte>)
    requires Detect(probe, indexList).0.Ok?
    ensures exists k :: FirstHit(probe, indexList, k)
                        && 0 <= k < |indexList| && indexList[k] == Detect(probe, indexList).0.value
  {
    if probe(indexList[0]).0 == Ok(true) {
      assert FirstHit(probe, indexList, 0);
    } else {
      var rest := indexList[1..];
      DetectFindsFirst(probe, rest);
      var k :| FirstHit(probe, rest, k) && 0 <= k < |rest| && rest[k] == Detect(probe, rest).0.value;
      forall j | 0 <= j < k + 1
        ensures probe(indexList[j]).0 == Ok(false)
      {
        if j > 0 {
          assert indexList[j] == rest[j - 1];
        }
      }
      assert indexList[k + 1] == rest[k];
      assert FirstHit(probe, indexList, k + 1);
    }
  }

  /** Conversely, the first listed index a device answers on is found. */
  lemma {:induction false} FirstHitDetected(probe: Prober, indexList: seq<byte>, k: int)
    requires FirstHit(probe, indexList, k)
    ensures 0 <= k < |indexList| && Detect(probe, indexList).0 == Ok(indexList[k])
  {
    if k > 0 {
      var rest := indexList[1..];
      assert probe(indexList[0]).0 == Ok(false);
      forall j | 0 <= j < k - 1
        ensures probe(rest[j]).0 == Ok(false)
      {
        assert rest[j] == indexList[j + 1];
      }
      assert rest[k - 1] == indexList[k];
      FirstHitDetected(probe, rest, k - 1);
    }
  }

  /** No probe of a device fails with "device not found". */
  lemma ProbesKnown(shortPort: bool, readShort: Reader, readLong: Reader)
    ensures forall device :: Probes(shortPort, readShort, readLong)(device).0 != Err(DeviceNotFound)
  {
  }

  /** With probes that never fail with "device not found" themselves, the
      search fails with it exactly when every probe succeeds and finds no
      device. */
  lemma {:induction false} NotFoundIff(probe: Prober, indexList: seq<byte>)
    requires forall device :: probe(device).0 != Err(DeviceNotFound)
    ensures Detect(probe, indexList).0 == Err(DeviceNotFound)
            <==> forall j :: 0 <= j < |indexList| ==> probe(indexList[j]).0 == Ok(false)
  {
    if indexList != [] {
      var rest := indexList[1..];
      NotFoundIff(probe, rest);
      if forall j :: 0 <= j < |rest| ==> probe(rest[j]).0 == Ok(false) {
        forall j | 1 <= j < |indexList|
          ensures probe(indexList[j]).0 == Ok(false)
        {
          assert indexList[j] == rest[j - 1];
        }
      } else {
        var j :| 0 <= j < |rest| && probe(rest[j]).0 != Ok(false);
        assert indexList[j + 1] == rest[j];
      }
    }
  }

  /** The transport object: its ports, the device index requests address,
      and the reports written so far. */
  class Hidpp {
    const shortPort: bool
    const readShort: Reader
    const readLong: Reader
    var deviceIndex: byte
    var written: seq<Report>

    constructor (shortPort: bool, readShort: Reader, readLong: Reader, deviceIndex: byte)
      ensures this.shortPort == shortPort && this.readShort == readShort && this.readLong == readLong
      ensures this.deviceIndex == deviceIndex && written == []
    {
      this.shortPort := shortPort;
      this.readShort := readShort;
      this.readLong := readLong;
      this.deviceIndex := deviceIndex;
      written := [];
    }

    /** `ping_device(data, is_rap_ping)` */
    method PingDevice(data: seq<byte>, rap: bool) returns (r: Result<seq<byte>>)
      requires shortPort ==> |data| >= 1
      modifies this
      ensures r == Ping(shortPort, readShort, readLong, data, rap)
      ensures deviceIndex == old(deviceIndex) && written == old(written) + [Outgoing(shortPort, data)]
    {
      var buf: seq<byte>;
      var report: Report;
      if shortPort && data[0] == 0x10 && |data| <= 7 {
        buf := Pad(data, 7);
        report := Report(true, buf);
      } else {
        buf := Pad(data, 20);
        buf := buf[0 := 0x11];
        report := Report(false, buf);
      }
      written := written + [report];
      if rap && buf[2] in ShortRegs {
        if !shortPort {
          return Err(NoShortPort);
        }
        return Ok(readShort(report));
      }
      return Ok(readLong(report));
    }

    /** `find_feature_index(feature)` */
    method FindFeatureIndex(feature: u16) returns (r: Result<int>)
      modifies this
      ensures deviceIndex == old(deviceIndex)
      ensures r == FeatureIndex(shortPort, readShort, readLong, deviceIndex, feature).0
      ensures written == old(written) + FeatureIndex(shortPort, readShort, readLong, deviceIndex, feature).1
      decreases if feature == 0 then 0 else 2
    {
      if feature == 0 {
        return Ok(0);
      }
      var out := CallFeature(0, 0, BE16(feature));
      if out.Err? {
        return Err(out.error);
      }
      if |out.value| < 5 {
        return Err(ShortData);
      }
      return Ok(if out.value[4] > 0 then out.value[4] as int else -1);
    }

    /** `call_feature(feature, fn, params)` */
    method CallFeature(feature: u16, fn: nat, params: seq<byte>) returns (r: Result<seq<byte>>)
      requires fn < 16
      modifies this
      ensures deviceIndex == old(deviceIndex)
      ensures r == Call(shortPort, readShort, readLong, deviceIndex, feature, fn, params).0
      ensures written == old(written) + Call(shortPort, readShort, readLong, deviceIndex, feature, fn, params).1
      decreases if feature == 0 then 1 else 3
    {
      var index := FindFeatureIndex(feature);
      if index.Err? {
        return Err(index.error);
      }
      if index.value == -1 {
        return Err(UnsupportedFeature);
      }
      var data := Frame(deviceIndex, index.value, fn, params);
      r := PingDevice(data, false);
    }

    /** `has_feature(feature)` */
    method HasFeature(feature: u16) returns (r: Result<bool>)
      modifies this
      ensures deviceIndex == old(deviceIndex)
      ensures r == Supported(shortPort, readShort, readLong, deviceIndex, feature).0
      ensures written == old(written) + Supported(shortPort, readShort, readLong, deviceIndex, feature).1
    {
      var index := FindFeatureIndex(feature);
      if index.Err? {
        return Err(index.error);
      }
      return Ok(index.value >= 0);
    }

    /** `detect_device_index(index_list)`: the device index is left at the
        index found, or at the last one probed. */
    method DetectDeviceIndex(indexList: seq<byte>) returns (r: Result<byte>)
      modifies this
      ensures r == Detect(Probes(shortPort, readShort, readLong), indexList).0
      ensures written == old(written) + Detect(Probes(shortPort, readShort, readLong), indexList).1
      ensures r.Ok? ==> deviceIndex == r.value
      ensures indexList == [] ==> deviceIndex == old(deviceIndex)
      ensures indexList != [] ==> deviceIndex in indexList
    {
      ghost var start := written;
      ghost var total := Detect(Probes(shortPort, readShort, readLong), indexList);
      var k := 0;
      while k < |indexList|
        invariant 0 <= k <= |indexList|
        invariant Detect(Probes(shortPort, readShort, readLong), indexList[k..]).0 == total.0
        invariant written + Detect(Probes(shortPort, readShort, readLong), indexList[k..]).1 == start + total.1
        invariant k == 0 ==> deviceIndex == old(deviceIndex)
        invariant k > 0 ==> deviceIndex == indexList[k - 1]
      {
        deviceIndex := indexList[k];
        ghost var before := written;
        var hit := Probing();
        DetectStep(Probes(shortPort, readShort, readLong), indexList, k, before, written, start, total);
        if hit.Err? {
          return Err(hit.error);
        }
        if hit.value {
          return Ok(indexList[k]);
        }
        k := k + 1;
      }
      return Err(DeviceNotFound);
    }

    /** One probe of `detect_device_index` at the current device index. */
    method Probing() returns (r: Result<bool>)
      modifies this
      ensures deviceIndex == old(deviceIndex)
      ensures r == Probe(shortPort, readShort, readLong, deviceIndex).0
      ensures written == old(written) + Probe(shortPort, readShort, readLong, deviceIndex).1
    {
      var out := CallFeature(FeatureSet, 0, [0]);
      if out.Err? {
        return Err(out.error);
      }
      if |out.value| < 3 {
        return Err(ShortData);
      }
      return Ok(out.value[2] == 1);
    }
  }

  /** The search from position `k` is the probe there, then the search from
      `k + 1`: what is left to write and to return after the probe is what
      the search from `k + 1` writes and returns. */
  lemma DetectStep(probe: Prober, indexList: seq<byte>, k: nat,
                   before: seq<Report>, after: seq<Report>, start: seq<Report>, total: (Result<byte>, seq<Report>))
    requires k < |indexList|
    requires Detect(probe, indexList[k..]).0 == total.0
    requires before + Detect(probe, indexList[k..]).1 == start + total.1
    requires after == before + probe(indexList[k]).1
    ensures var hit := probe(indexList[k]).0;
            (hit.Err? ==> total.0 == Err(hit.error) && after == start + total.1)
            && (hit == Ok(true) ==> total.0 == Ok(indexList[k]) && after == start + total.1)
            && (hit == Ok(false) ==>
                  Detect(probe, indexList[k + 1..]).0 == total.0
                  && after + Detect(probe, indexList[k + 1..]).1 == start + total.1)
  {
    var list := indexList[k..];
    assert list[0] == indexList[k] && list[1..] == indexList[k + 1..];
    var first := probe(indexList[k]);
    if first.0 == Ok(false) {
      var rest := Detect(probe, indexList[k + 1..]);
      assert Detect(probe, list) == (rest.0, first.1 + rest.1);
      assert (before + first.1) + rest.1 == before + (first.1 + rest.1);
    }
  }
}
