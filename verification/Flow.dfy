/** Flow keys, and the dissection of an Ethernet/IPv4 frame into one. */
module Flow {
  import opened Words

  type byte = x: int | 0 <= x < 256
  type u16 = x: int | 0 <= x < 0x1_0000

  datatype Option<+T> = None | Some(value: T)

  /** The 5-tuple the sketch hashes; the padding bytes are hashed too. */
  datatype FlowKey = FlowKey(srcIp: u32, dstIp: u32, srcPort: u16, dstPort: u16, proto: byte, pad: seq<byte>)

  const ZERO_PAD: seq<byte> := [0, 0, 0]

  const ETH_HLEN := 14
  const IP_HLEN := 20
  const IPPROTO_TCP: byte := 6
  const IPPROTO_UDP: byte := 17

  /** Words are read in network byte order. */
  function Read16(b: seq<byte>, at: nat): u16
    requires at + 2 <= |b|
  {
    var hi: int := b[at];
    hi * 256 + b[at + 1]
  }

  function Read32(b: seq<byte>, at: nat): u32
    requires at + 4 <= |b|
  {
    Read16(b, at) * 0x1_0000 + Read16(b, at + 2)
  }

  function Write16(x: u16): (b: seq<byte>)
    ensures |b| == 2
  {
    [x / 256, x % 256]
  }

  function Write32(x: u32): (b: seq<byte>)
    ensures |b| == 4
  {
    Write16(x / 0x1_0000) + Write16(x % 0x1_0000)
  }

  predicate HasPorts(proto: byte) {
    proto == IPPROTO_TCP || proto == IPPROTO_UDP
  }

  /** Length of the transport header that must be present before its ports are read. */
  function TransportLen(proto: byte): nat {
    if proto == IPPROTO_TCP then 20 else 8
  }

  predicate IsIPv4(frame: seq<byte>) {
    && |frame| >= ETH_HLEN + IP_HLEN
    && frame[12] == 0x08 && frame[13] == 0x00
    && frame[14] % 16 >= 5
  }

  /** Offset of the transport header: the low nibble of the first IP byte counts 32-bit words. */
  function TransportAt(frame: seq<byte>): nat
    requires IsIPv4(frame)
  {
    ETH_HLEN + (frame[14] % 16) * 4
  }

  /** The flow of a frame, or nothing for a frame the limiter does not account. */
  function FlowOf(frame: seq<byte>): Option<FlowKey> {
    if !IsIPv4(frame) then None else
      var proto, l4 := frame[23], TransportAt(frame);
      var src, dst := Read32(frame, 26), Read32(frame, 30);
      if !HasPorts(proto) then Some(FlowKey(src, dst, 0, 0, proto, ZERO_PAD))
      else if l4 + TransportLen(proto) > |frame| then None
      else Some(FlowKey(src, dst, Read16(frame, l4), Read16(frame, l4 + 2), proto, ZERO_PAD))
  }

  /**
   The dissector as the program runs it: the key is filled field by field, and every read is
   preceded by its bound check against the end of the packet.
   */
  method ParseFlow(frame: seq<byte>) returns (r: Option<FlowKey>)
    ensures r == FlowOf(frame)
  {
    var eth := 0;
    if eth + ETH_HLEN > |frame| {
      return None;
    }
    if frame[eth + 12] != 0x08 || frame[eth + 13] != 0x00 {
      return None;
    }
    var ip := eth + ETH_HLEN;
    if ip + IP_HLEN > |frame| {
      return None;
    }
    var ihl := frame[ip] % 16;
    if ihl < 5 {
      return None;
    }
    var out := FlowKey(0, 0, 0, 0, 0, ZERO_PAD);
    out := out.(srcIp := Read32(frame, ip + 12));
    out := out.(dstIp := Read32(frame, ip + 16));
    var proto := frame[ip + 9];
    out := out.(proto := proto);
    var l4 := ip + ihl * 4;
    if proto == IPPROTO_TCP {
      if l4 + 20 > |frame| {
        return None;
      }
      out := out.(srcPort := Read16(frame, l4));
      out := out.(dstPort := Read16(frame, l4 + 2));
    } else if proto == IPPROTO_UDP {
      if l4 + 8 > |frame| {
        return None;
      }
      out := out.(srcPort := Read16(frame, l4));
      out := out.(dstPort := Read16(frame, l4 + 2));
    }
    return Some(out);
  }

  // ---------------------------------------------------------------- frames as they are built

  /**
   The parts of a frame: addresses, the IP header fields the dissector ignores (`mid` holds type of
   service to time to live, so also the fragment offset), and what follows the fixed IP header.
   */
  datatype Body =
    | Transport(options: seq<byte>, srcPort: u16, dstPort: u16, rest: seq<byte>, payload: seq<byte>)
    | Other(bytes: seq<byte>)

  datatype Frame = Frame(macs: seq<byte>, version: nat, ihl: nat, mid: seq<byte>, proto: byte,
                         checksum: seq<byte>, src: u32, dst: u32, body: Body)

  ghost predicate WellFormed(f: Frame) {
    && |f.macs| == 12 && f.version < 16 && 5 <= f.ihl < 16
    && |f.mid| == 8 && |f.checksum| == 2
    && f.body.Transport? == HasPorts(f.proto)
    && (f.body.Transport? ==>
          && |f.body.options| == (f.ihl - 5) * 4
          && |f.body.rest| == TransportLen(f.proto) - 4)
  }

  function Fixed(f: Frame): (b: seq<byte>)
    requires f.version < 16 && f.ihl < 16
  {
    f.macs + [0x08, 0x00] + [f.version * 16 + f.ihl] + f.mid + [f.proto] + f.checksum
    + Write32(f.src) + Write32(f.dst)
  }

  function EncodeBody(b: Body): seq<byte> {
    match b
    case Transport(options, s, d, rest, payload) => options + (Write16(s) + Write16(d)) + (rest + payload)
    case Other(bytes) => bytes
  }

  function Encode(f: Frame): seq<byte>
    requires f.version < 16 && f.ihl < 16
  {
    Fixed(f) + EncodeBody(f.body)
  }

  function KeyOf(f: Frame): FlowKey {
    match f.body
    case Transport(_, s, d, _, _) => FlowKey(f.src, f.dst, s, d, f.proto, ZERO_PAD)
    case Other(_) => FlowKey(f.src, f.dst, 0, 0, f.proto, ZERO_PAD)
  }

  lemma {:induction false} ReadWritten16(pre: seq<byte>, x: u16, post: seq<byte>)
    ensures Read16(pre + Write16(x) + post, |pre|) == x
  {
    var b := pre + Write16(x) + post;
    assert b[|pre|] == x / 256 && b[|pre| + 1] == x % 256;
  }

  lemma {:induction false} ReadWritten32(pre: seq<byte>, x: u32, post: seq<byte>)
    ensures Read32(pre + Write32(x) + post, |pre|) == x
  {
    var hi, lo := Write16(x / 0x1_0000), Write16(x % 0x1_0000);
    var b := pre + Write32(x) + post;
    assert b == pre + hi + (lo + post);
    ReadWritten16(pre, x / 0x1_0000, lo + post);
    assert b == (pre + hi) + lo + post;
    ReadWritten16(pre + hi, x % 0x1_0000, post);
  }

  lemma {:induction false} FixedFields(f: Frame)
    requires WellFormed(f)
    ensures var b := Encode(f);
            && IsIPv4(b) && TransportAt(b) == 14 + f.ihl * 4 && b[23] == f.proto
            && |Fixed(f)| == 34
  {
    var b := Encode(f);
    var head := f.macs + [0x08, 0x00];
    assert head[12] == 8 && head[13] == 0;
    var h2 := head + [f.version * 16 + f.ihl] + f.mid + [f.proto];
    assert h2[12] == head[12] && h2[13] == head[13] && h2[14] == f.version * 16 + f.ihl && h2[23] == f.proto;
    assert b == h2 + (f.checksum + Write32(f.src) + Write32(f.dst) + EncodeBody(f.body));
    assert b[12] == h2[12] && b[13] == h2[13] && b[14] == h2[14] && b[23] == h2[23];
  }

  lemma {:induction false} Addresses(f: Frame)
    requires WellFormed(f)
    requires |Encode(f)| >= 34
    ensures Read32(Encode(f), 26) == f.src && Read32(Encode(f), 30) == f.dst
  {
    var h2 := f.macs + [0x08, 0x00] + [f.version * 16 + f.ihl] + f.mid + [f.proto] + f.checksum;
    var s, d, e := Write32(f.src), Write32(f.dst), EncodeBody(f.body);
    assert Encode(f) == h2 + s + (d + e);
    ReadWritten32(h2, f.src, d + e);
    assert Encode(f) == (h2 + s) + d + e;
    ReadWritten32(h2 + s, f.dst, e);
  }

  lemma {:induction false} Ports(f: Frame)
    requires WellFormed(f) && f.body.Transport? && |Fixed(f)| == 34
    ensures var b, l4 := Encode(f), 14 + f.ihl * 4;
            && l4 + TransportLen(f.proto) <= |b|
            && Read16(b, l4) == f.body.srcPort && Read16(b, l4 + 2) == f.body.dstPort
  {
    var Transport(options, s, d, rest, payload) := f.body;
    var pre := Fixed(f) + options;
    assert Encode(f) == pre + Write16(s) + (Write16(d) + (rest + payload));
    ReadWritten16(pre, s, Write16(d) + (rest + payload));
    assert Encode(f) == (pre + Write16(s)) + Write16(d) + (rest + payload);
    ReadWritten16(pre + Write16(s), d, rest + payload);
  }

  /**
   Dissection undoes construction: any version nibble, fragment offset, options and payload, and
   the tuple comes back exactly.
   */
  lemma {:induction false} ParseInvertsEncode(f: Frame)
    requires WellFormed(f)
    ensures FlowOf(Encode(f)) == Some(KeyOf(f))
  {
    FixedFields(f);
    Addresses(f);
    if f.body.Transport? {
      Ports(f);
    }
  }

  /** The frame a byte string spells, cut at the dissector's offsets. */
  function Cut(b: seq<byte>): Frame
    requires FlowOf(b).Some?
  {
    var l4, proto := TransportAt(b), b[23];
    Frame(b[..12], b[14] / 16, b[14] % 16, b[15..23], proto, b[24..26], Read32(b, 26), Read32(b, 30),
          if HasPorts(proto)
          then Transport(b[34..l4], Read16(b, l4), Read16(b, l4 + 2),
                         b[l4 + 4..l4 + TransportLen(proto)], b[l4 + TransportLen(proto)..])
          else Other(b[34..]))
  }

  lemma {:induction false} WriteRead16(b: seq<byte>, at: nat)
    requires at + 2 <= |b|
    ensures Write16(Read16(b, at)) == b[at..at + 2]
  {
  }

  lemma {:induction false} WriteRead32(b: seq<byte>, at: nat)
    requires at + 4 <= |b|
    ensures Write32(Read32(b, at)) == b[at..at + 4]
  {
    WriteRead16(b, at);
    WriteRead16(b, at + 2);
  }

  lemma {:induction false} FixedOfCut(b: seq<byte>)
    requires FlowOf(b).Some?
    ensures Fixed(Cut(b)) == b[..34]
  {
    WriteRead32(b, 26);
    WriteRead32(b, 30);
    var f := Cut(b);
    assert f.macs + [0x08, 0x00] == b[..14];
    assert b[..14] + [f.version * 16 + f.ihl] == b[..15];
    assert b[..15] + f.mid == b[..23];
    assert b[..23] + [f.proto] == b[..24];
    assert b[..24] + f.checksum == b[..26];
    assert b[..26] + Write32(f.src) == b[..30];
    assert b[..30] + Write32(f.dst) == b[..34];
  }

  lemma {:induction false} Glue(b: seq<byte>, i: nat, j: nat, k: nat)
    requires i <= j <= k <= |b|
    ensures b[i..j] + b[j..k] == b[i..k]
  {
  }

  /** Where the transport header of an accepted frame lies. */
  lemma {:induction false} PortsInFrame(b: seq<byte>)
    requires FlowOf(b).Some?
    ensures 34 <= |b|
    ensures HasPorts(b[23]) ==> 34 <= TransportAt(b) && TransportAt(b) + TransportLen(b[23]) <= |b| && 4 <= TransportLen(b[23])
  {
  }

  lemma {:induction false} PortsOfCut(b: seq<byte>, at: nat)
    requires at + 4 <= |b|
    ensures Write16(Read16(b, at)) + Write16(Read16(b, at + 2)) == b[at..at + 4]
  {
    WriteRead16(b, at);
    WriteRead16(b, at + 2);
    Glue(b, at, at + 2, at + 4);
  }

  lemma {:induction false} GlueBody(b: seq<byte>, i: nat, l4: nat, n: nat, options: seq<byte>, ports: seq<byte>, rest: seq<byte>,
                                    payload: seq<byte>)
    requires i <= l4 && 4 <= n && l4 + n <= |b|
    requires options == b[i..l4] && ports == b[l4..l4 + 4] && rest == b[l4 + 4..l4 + n] && payload == b[l4 + n..|b|]
    ensures options + ports + (rest + payload) == b[i..|b|]
  {
    Glue(b, i, l4, l4 + 4);
    Glue(b, l4 + 4, l4 + n, |b|);
    Glue(b, i, l4 + 4, |b|);
  }

  lemma {:induction false} ToEnd(b: seq<byte>, i: nat)
    requires i <= |b|
    ensures b[i..] == b[i..|b|]
  {
  }

  lemma {:induction false} BodyOfCut(b: seq<byte>)
    requires FlowOf(b).Some?
    ensures 34 <= |b| && EncodeBody(Cut(b).body) == b[34..]
  {
    PortsInFrame(b);
    if HasPorts(b[23]) {
      var l4, n, body := TransportAt(b), TransportLen(b[23]), Cut(b).body;
      ToEnd(b, l4 + n);
      ToEnd(b, 34);
      PortsOfCut(b, l4);
      GlueBody(b, 34, l4, n, body.options, Write16(body.srcPort) + Write16(body.dstPort), body.rest, body.payload);
    }
  }

  lemma {:induction false} CutIsWellFormed(b: seq<byte>)
    requires FlowOf(b).Some?
    ensures WellFormed(Cut(b)) && FlowOf(b) == Some(KeyOf(Cut(b)))
  {
    PortsInFrame(b);
  }

  /** Nothing else is accepted: a frame has a flow only if it is the encoding of one. */
  lemma {:induction false} AcceptedFramesAreEncodings(b: seq<byte>)
    requires FlowOf(b).Some?
    ensures WellFormed(Cut(b)) && Encode(Cut(b)) == b && FlowOf(b) == Some(KeyOf(Cut(b)))
  {
    CutIsWellFormed(b);
    FixedOfCut(b);
    BodyOfCut(b);
    Glue(b, 0, 34, |b|);
  }

  // ---------------------------------------------------------------- which keys and lengths occur

  /** A key the dissector can return. */
  predicate IsFlow(k: FlowKey) {
    k.pad == ZERO_PAD && (HasPorts(k.proto) || (k.srcPort == 0 && k.dstPort == 0))
  }

  /** The headers a frame of the flow must hold. */
  function HeaderLen(k: FlowKey): (n: nat)
    ensures 34 <= n <= 54
  {
    ETH_HLEN + IP_HLEN + if HasPorts(k.proto) then TransportLen(k.proto) else 0
  }

  /** What the dissector accepts is such a flow, in a frame that holds its headers. */
  lemma {:induction false} ParsedFlows(b: seq<byte>)
    requires FlowOf(b).Some?
    ensures IsFlow(FlowOf(b).value) && HeaderLen(FlowOf(b).value) <= |b|
  {
  }

  /** The shortest frame of a flow. */
  function Shortest(k: FlowKey): Frame
    requires IsFlow(k)
  {
    Frame(seq(12, i => 0), 4, 5, seq(8, i => 0), k.proto, [0, 0], k.srcIp, k.dstIp,
          if HasPorts(k.proto)
          then Transport([], k.srcPort, k.dstPort, seq(TransportLen(k.proto) - 4, i => 0), [])
          else Other([]))
  }

  /** Conversely, every such flow has a frame, and the headers alone are enough. */
  lemma {:induction false} FlowsHaveFrames(k: FlowKey)
    requires IsFlow(k)
    ensures var b := Encode(Shortest(k)); FlowOf(b) == Some(k) && |b| == HeaderLen(k)
  {
    ParseInvertsEncode(Shortest(k));
  }

  // ---------------------------------------------------------------- the dissector byte by byte

  /** The word of two bytes, most significant first. */
  function Word(hi: byte, lo: byte): u16 {
    256 * hi + lo
  }

  function Address(a: byte, b: byte, c: byte, d: byte): u32 {
    0x100_0000 * a + 0x1_0000 * b + 0x100 * c + d
  }

  /** The two addresses of every accepted frame, and the ports where the transport header starts. */
  ghost predicate Spells(b: seq<byte>, k: FlowKey, src: u16, dst: u16)
    requires 34 <= |b|
  {
    k == FlowKey(Address(b[26], b[27], b[28], b[29]), Address(b[30], b[31], b[32], b[33]), src, dst, b[23], [0, 0, 0])
  }

  /** Which frames are accounted, and as what, by byte positions of RFC 791, RFC 793 and RFC 768. */
  lemma {:induction false} FlowByBytes(b: seq<byte>)
    ensures FlowOf(b).Some? ==> 34 <= |b| && b[12] == 8 && b[13] == 0 && b[14] % 16 >= 5
    ensures 34 <= |b| && b[12] == 8 && b[13] == 0 && b[14] % 16 >= 5 ==>
              var at := 14 + 4 * (b[14] % 16);
              && (b[23] == 6 ==>
                    && (FlowOf(b).Some? <==> at + 20 <= |b|)
                    && (at + 20 <= |b| ==> Spells(b, FlowOf(b).value, Word(b[at], b[at + 1]), Word(b[at + 2], b[at + 3]))))
              && (b[23] == 17 ==>
                    && (FlowOf(b).Some? <==> at + 8 <= |b|)
                    && (at + 8 <= |b| ==> Spells(b, FlowOf(b).value, Word(b[at], b[at + 1]), Word(b[at + 2], b[at + 3]))))
              && (b[23] != 6 && b[23] != 17 ==> FlowOf(b).Some? && Spells(b, FlowOf(b).value, 0, 0))
  {
  }
}
