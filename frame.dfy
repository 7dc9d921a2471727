/** The request framing shared by the two transports, libs/LogiHPP20.py and
    libs/LogiHPP.py: the four-byte header of `call_feature` and the report
    `ping_device` writes, on the short port or the long one. */
module HidppFrame {
  import opened Bytes

  /** The software id both transports put in the low nibble of the function
      byte. */
  const Swid: byte := 0xF

  /** A report written to the device: on the short port (7 bytes, report id
      0x10) or on the long port (20 bytes, report id 0x11). */
  datatype Report = Report(short: bool, bytes: seq<byte>)

  /** The request of `call_feature`: report id 0x10, device index, feature
      index, function number and software id, then the parameters. */
  function Frame(device: byte, index: byte, fn: nat, params: seq<byte>): (f: seq<byte>)
    requires fn < 16
    ensures |f| == 4 + |params| && f[0] == 0x10
  {
    [0x10, device, index, fn * 16 + Swid] + params
  }

  /** `(data + [0] * n)[:n]` */
  function Pad(data: seq<byte>, n: nat): (r: seq<byte>)
    ensures |r| == n
    ensures forall i :: 0 <= i < n ==> r[i] == if i < |data| then data[i] else 0
  {
    if |data| >= n then data[..n] else data + Fill(n - |data|, 0)
  }

  /** The report `ping_device` writes for `data`: the short port takes a
      short request (report id 0x10, at most 7 bytes) when there is one;
      everything else goes to the long port as 20 bytes with report id 0x11.
      With a short port, empty data makes `data[0]` raise IndexError; every
      caller sends a header of at least four bytes, so the model requires a
      first byte rather than modelling that error. */
  function Outgoing(shortPort: bool, data: seq<byte>): (r: Report)
    requires shortPort ==> |data| >= 1
    ensures |r.bytes| == if r.short then 7 else 20
  {
    if shortPort && data[0] == 0x10 && |data| <= 7 then Report(true, Pad(data, 7))
    else Report(false, Pad(data, 20)[0 := 0x11])
  }

  /** Which port a request goes to, and the report on each: on the short
      port the request zero-padded to 7 bytes, on the long port its bytes
      1..19 zero-padded or cut to 20 bytes behind report id 0x11. */
  lemma PortChoice(shortPort: bool, data: seq<byte>)
    requires shortPort ==> |data| >= 1
    ensures var r := Outgoing(shortPort, data);
            (r.short <==> shortPort && data[0] == 0x10 && |data| <= 7)
            && (r.short ==> |r.bytes| == 7 && r.bytes[..|data|] == data
                            && forall i :: |data| <= i < 7 ==> r.bytes[i] == 0)
            && (!r.short ==> |r.bytes| == 20 && r.bytes[0] == 0x11
                             && forall i :: 1 <= i < 20 ==> r.bytes[i] == if i < |data| then data[i] else 0)
  {
    var r := Outgoing(shortPort, data);
    if r.short {
      assert r.bytes[..|data|] == data;
    }
  }

  /** A request frame on the long port: its header after the report id, then
      the first 16 parameters, zero-padded. */
  lemma LongFrame(device: byte, index: byte, fn: nat, params: seq<byte>)
    requires fn < 16
    ensures var r := Outgoing(false, Frame(device, index, fn, params));
            !r.short && r.bytes[..4] == [0x11, device, index, fn * 16 + Swid]
            && r.bytes[4..] == Pad(params, 16)
  {
    var f := Frame(device, index, fn, params);
    var r := Outgoing(false, f);
    assert r.bytes[..4] == [0x11, device, index, fn * 16 + Swid];
    assert r.bytes[4..] == Pad(params, 16);
  }
}
