/**
 The fixed-size header in front of a tunnelled stream: layout, round trip and error detection.

 The class holds the fields as the program does; its meaning is the flat sequence of its bytes.
 */
module StreamHeader {
  import opened Octet
  import opened Crc32

  const VERSION_SIZE := 8
  const HOST_SIZE := 255
  const PORT_SIZE := 5
  const CHECKSUM_SIZE := 4
  const COVERED_SIZE := VERSION_SIZE + 1 + HOST_SIZE + 1 + PORT_SIZE + 1
  const HEADER_SIZE := COVERED_SIZE + CHECKSUM_SIZE

  const HOST_AT := VERSION_SIZE + 1
  const PORT_AT := HOST_AT + HOST_SIZE + 1

  // "0.1.0", padded with zeros.
  const VERSION: seq<Byte> := [0x30, 0x2E, 0x31, 0x2E, 0x30, 0, 0, 0]

  const FLAG_CLOSE_IMMEDIATELY: Byte := 1

  // ----- numbers in bytes

  function Narrow(x: bv32): Byte {
    (x & 0xFF) as Byte
  }

  lemma NarrowWiden(x: bv32)
    requires x <= 0xFF
    ensures Widen(Narrow(x)) == x
  {
  }

  // Big-endian, as binary.BigEndian.
  function PutUint32(c: bv32): (s: seq<Byte>)
    ensures |s| == 4
  {
    var b := Bytes(c);
    [Narrow(b.3), Narrow(b.2), Narrow(b.1), Narrow(b.0)]
  }

  function Uint32(s: seq<Byte>): bv32
    requires |s| == 4
  {
    Word([s[3], s[2], s[1], s[0]])
  }

  lemma BytesRebuild(c: bv32, a: bv32, b: bv32, d: bv32, e: bv32)
    requires (a, b, d, e) == Bytes(c)
    ensures a <= 0xFF && b <= 0xFF && d <= 0xFF && e <= 0xFF
    ensures c == a ^ (b << 8) ^ (d << 16) ^ (e << 24)
  {
  }

  lemma WordFromBytes(p: seq<Byte>, c: bv32, b: (bv32, bv32, bv32, bv32))
    requires |p| == 4 && b == Bytes(c)
    requires Widen(p[0]) == b.0 && Widen(p[1]) == b.1 && Widen(p[2]) == b.2 && Widen(p[3]) == b.3
    ensures Word(p) == c
  {
    hide Word, Widen, Bytes;
    WordIs(p, Word(p));
    BytesRebuild(c, b.0, b.1, b.2, b.3);
  }

  lemma Uint32RoundTrip(c: bv32)
    ensures Uint32(PutUint32(c)) == c
  {
    hide Word, Widen, Bytes, Narrow;
    var b := Bytes(c);
    BytesRebuild(c, b.0, b.1, b.2, b.3);
    NarrowWiden(b.0);
    NarrowWiden(b.1);
    NarrowWiden(b.2);
    NarrowWiden(b.3);
    WordFromBytes([Narrow(b.0), Narrow(b.1), Narrow(b.2), Narrow(b.3)], c, b);
  }

  // ----- the layout, as byte sequences

  function Zeros(n: nat): (s: seq<Byte>)
    ensures |s| == n
  {
    seq(n, _ => 0)
  }

  function Pad(s: seq<Byte>, n: nat): (r: seq<Byte>)
    requires |s| <= n
    ensures |r| == n && r[..|s|] == s
  {
    s + Zeros(n - |s|)
  }

  // The bytes the checksum covers.
  function Body(host: seq<Byte>, port: seq<Byte>, flag: Byte): (s: seq<Byte>)
    requires |host| <= HOST_SIZE && |port| <= PORT_SIZE
    ensures |s| == COVERED_SIZE
  {
    VERSION + [Length8(|host|)] + Pad(host, HOST_SIZE) + [Length8(|port|)] + Pad(port, PORT_SIZE) + [flag]
  }

  function HeaderBytes(host: seq<Byte>, port: seq<Byte>, flag: Byte): (s: seq<Byte>)
    requires |host| <= HOST_SIZE && |port| <= PORT_SIZE
    ensures |s| == HEADER_SIZE
  {
    Body(host, port, flag) + PutUint32(Checksum(Body(host, port, flag)))
  }

  // What Validate accepts.
  predicate ValidBytes(s: seq<Byte>)
    requires |s| == HEADER_SIZE
  {
    && s[..VERSION_SIZE] == VERSION
    && s[VERSION_SIZE] as int <= HOST_SIZE
    && s[PORT_AT - 1] as int <= PORT_SIZE
    && Checksum(s[..COVERED_SIZE]) == Uint32(s[COVERED_SIZE..])
  }

  function HostOf(s: seq<Byte>): seq<Byte>
    requires |s| == HEADER_SIZE && s[VERSION_SIZE] as int <= HOST_SIZE
  {
    s[HOST_AT..HOST_AT + s[VERSION_SIZE] as int]
  }

  function PortOf(s: seq<Byte>): seq<Byte>
    requires |s| == HEADER_SIZE && s[PORT_AT - 1] as int <= PORT_SIZE
  {
    s[PORT_AT..PORT_AT + s[PORT_AT - 1] as int]
  }

  // Where the parts of a header are.
  lemma PartsAt(s: seq<Byte>, v: seq<Byte>, m: Byte, h: seq<Byte>, n: Byte, p: seq<Byte>, flag: Byte, c: seq<Byte>)
    requires |v| == 8 && |h| == 255 && |p| == 5 && s == v + [m] + h + [n] + p + [flag] + c
    ensures |s| == 271 + |c| && s[..8] == v && s[8] == m && s[9..264] == h && s[264] == n && s[265..270] == p
    ensures s[270] == flag && s[..271] == v + [m] + h + [n] + p + [flag] && s[271..] == c
  {
  }

  lemma Start(s: seq<Byte>, a: nat, b: nat, n: nat)
    requires a <= b <= |s| && n <= b - a
    ensures s[a..b][..n] == s[a..a + n]
  {
  }

  lemma PaddedBy(s: seq<Byte>, n: nat)
    requires |s| <= n
    ensures Pad(s, n)[..|s|] == s && forall i :: |s| <= i < n ==> Pad(s, n)[i] == 0
  {
  }

  // The layout in numbers: 275 bytes, of which the first five are "0.1.0".
  lemma Layout(host: seq<Byte>, port: seq<Byte>, flag: Byte)
    requires |host| <= 255 && |port| <= 5
    ensures var s := HeaderBytes(host, port, flag);
            && |s| == 275
            && s[..8] == ['0' as int as Byte, '.' as int as Byte, '1' as int as Byte, '.' as int as Byte, '0' as int as Byte, 0, 0, 0]
            && s[8] as int == |host| && s[9..9 + |host|] == host && (forall i :: 9 + |host| <= i < 264 ==> s[i] == 0)
            && s[264] as int == |port| && s[265..265 + |port|] == port && (forall i :: 265 + |port| <= i < 270 ==> s[i] == 0)
            && s[270] == flag
            && s[271..] == PutUint32(Checksum(s[..271]))
  {
    hide Checksum, PutUint32;
    var body, s, h, p := Body(host, port, flag), HeaderBytes(host, port, flag), Pad(host, 255), Pad(port, 5);
    PartsAt(s, VERSION, Length8(|host|), h, Length8(|port|), p, flag, PutUint32(Checksum(body)));
    PaddedBy(host, 255);
    PaddedBy(port, 5);
    assert forall i :: 9 <= i < 264 ==> s[i] == h[i - 9];
    assert forall i :: 265 <= i < 270 ==> s[i] == p[i - 265];
    Start(s, 9, 264, |host|);
    Start(s, 265, 270, |port|);
    hide Pad, Body, HeaderBytes;
  }

  // A header made for a host and a port is accepted and gives both back.
  lemma RoundTrip(host: seq<Byte>, port: seq<Byte>, flag: Byte)
    requires |host| <= HOST_SIZE && |port| <= PORT_SIZE
    ensures var s := HeaderBytes(host, port, flag);
            && ValidBytes(s)
            && HostOf(s) == host && PortOf(s) == port && s[COVERED_SIZE - 1] == flag
  {
    hide HeaderBytes, Checksum, Uint32, PutUint32;
    Layout(host, port, flag);
    Uint32RoundTrip(Checksum(HeaderBytes(host, port, flag)[..COVERED_SIZE]));
  }

  // Damage to at most four consecutive covered bytes, with the checksum field intact, is always rejected.
  lemma BurstRejected(s: seq<Byte>, t: seq<Byte>, i: nat)
    requires |s| == |t| == HEADER_SIZE && ValidBytes(s)
    requires i + 4 <= COVERED_SIZE
    requires s[..i] == t[..i] && s[i + 4..] == t[i + 4..] && s != t
    ensures !ValidBytes(t)
  {
    hide Checksum, Uint32;
    var pre, post := s[..i], s[i + 4..COVERED_SIZE];
    var p, q := s[i..i + 4], t[i..i + 4];
    assert s[..COVERED_SIZE] == pre + p + post;
    assert t[i + 4..COVERED_SIZE] == t[i + 4..][..COVERED_SIZE - i - 4] == post;
    assert t[..COVERED_SIZE] == pre + q + post;
    assert s[COVERED_SIZE..] == s[i + 4..][COVERED_SIZE - i - 4..] == t[i + 4..][COVERED_SIZE - i - 4..] == t[COVERED_SIZE..];
    assert s == pre + p + s[i + 4..] && t == pre + q + s[i + 4..];
    BurstChangesChecksum(pre, p, q, post);
  }

  // ----- the header object

  datatype Result<+T> = Ok(value: T) | HostTooLong | PortTooLong

  class StreamRequestHeader {
    const version: array<Byte>
    var hostLength: Byte
    const host: array<Byte>
    var portLength: Byte
    const port: array<Byte>
    var flag: Byte
    const checksum: array<Byte>

    ghost predicate Valid() {
      version.Length == VERSION_SIZE && host.Length == HOST_SIZE && port.Length == PORT_SIZE && checksum.Length == CHECKSUM_SIZE
    }

    ghost function Repr(): set<object> {
      {this, version, host, port, checksum}
    }

    // The bytes before the checksum field (BytesWithoutChecksum).
    ghost function Covered(): (s: seq<Byte>)
      requires Valid()
      reads Repr()
      ensures |s| == COVERED_SIZE
    {
      version[..] + [hostLength] + host[..] + [portLength] + port[..] + [flag]
    }

    // The whole header as it goes over the wire (Bytes).
    ghost function Wire(): (s: seq<Byte>)
      requires Valid()
      reads Repr()
      ensures |s| == HEADER_SIZE
    {
      Covered() + checksum[..]
    }

    constructor ()
      ensures Valid() && fresh(Repr())
      ensures version[..] == Zeros(VERSION_SIZE) && host[..] == Zeros(HOST_SIZE) && port[..] == Zeros(PORT_SIZE)
      ensures hostLength == 0 && portLength == 0 && flag == 0
    {
      version := new Byte[VERSION_SIZE](_ => 0);
      host := new Byte[HOST_SIZE](_ => 0);
      port := new Byte[PORT_SIZE](_ => 0);
      checksum := new Byte[CHECKSUM_SIZE](_ => 0);
      hostLength, portLength, flag := 0, 0, 0;
    }

    method UpdateChecksum()
      requires Valid()
      modifies checksum
      ensures Covered() == old(Covered()) && checksum[..] == PutUint32(Checksum(Covered()))
    {
      var bytes := version[..] + [hostLength] + host[..] + [portLength] + port[..] + [flag];
      Copy(checksum, PutUint32(Checksum(bytes)));
    }

    method ValidateHeader() returns (ok: bool)
      requires Valid()
      ensures ok == ValidBytes(Wire())
    {
      WireParts();
      if version[..] != VERSION {
        return false;
      }
      if hostLength as int > HOST_SIZE {
        return false;
      }
      if portLength as int > PORT_SIZE {
        return false;
      }
      var bytes := version[..] + [hostLength] + host[..] + [portLength] + port[..] + [flag];
      return Checksum(bytes) == Uint32(checksum[..]);
    }

    lemma WireParts()
      requires Valid()
      ensures Wire()[..VERSION_SIZE] == version[..]
      ensures Wire()[VERSION_SIZE] == hostLength && Wire()[PORT_AT - 1] == portLength
      ensures Wire()[HOST_AT..HOST_AT + HOST_SIZE] == host[..] && Wire()[PORT_AT..PORT_AT + PORT_SIZE] == port[..]
      ensures Wire()[..COVERED_SIZE] == Covered() && Wire()[COVERED_SIZE..] == checksum[..]
      ensures Wire()[COVERED_SIZE - 1] == flag
    {
    }

    method GetHostPort() returns (h: seq<Byte>, p: seq<Byte>)
      requires Valid() && portLength as int <= PORT_SIZE && hostLength as int <= HOST_SIZE
      ensures h == HostOf(Wire()) && p == PortOf(Wire())
    {
      hide HostOf, PortOf;
      WireParts();
      h, p := host[..hostLength as int], port[..portLength as int];
      var n, m := hostLength as int, portLength as int;
      HostStart(Wire(), host[..]);
      PortStart(Wire(), port[..]);
      assert host[..n] == host[..][..n] && port[..m] == port[..][..m];
    }

    method ShouldCloseImmediately() returns (b: bool)
      requires Valid()
      ensures b == (Wire()[COVERED_SIZE - 1] & 1 != 0)
    {
      WireParts();
      b := flag & FLAG_CLOSE_IMMEDIATELY != 0;
    }
  }

  lemma HostStart(s: seq<Byte>, h: seq<Byte>)
    requires |s| == HEADER_SIZE && s[HOST_AT..HOST_AT + HOST_SIZE] == h && s[VERSION_SIZE] as int <= HOST_SIZE
    ensures |h| == HOST_SIZE && HostOf(s) == h[..s[VERSION_SIZE] as int]
  {
    Start(s, HOST_AT, HOST_AT + HOST_SIZE, s[VERSION_SIZE] as int);
  }

  lemma PortStart(s: seq<Byte>, p: seq<Byte>)
    requires |s| == HEADER_SIZE && s[PORT_AT..PORT_AT + PORT_SIZE] == p && s[PORT_AT - 1] as int <= PORT_SIZE
    ensures |p| == PORT_SIZE && PortOf(s) == p[..s[PORT_AT - 1] as int]
  {
    Start(s, PORT_AT, PORT_AT + PORT_SIZE, s[PORT_AT - 1] as int);
  }

  // copy(dst, src)
  method Copy(dst: array<Byte>, src: seq<Byte>)
    requires |src| <= dst.Length
    modifies dst
    ensures dst[..] == src + old(dst[..])[|src|..]
  {
    forall i | 0 <= i < |src| {
      dst[i] := src[i];
    }
  }

  method NewStreamRequestHeader(host: seq<Byte>, port: seq<Byte>) returns (r: Result<StreamRequestHeader>)
    ensures r.HostTooLong? <==> |host| > HOST_SIZE
    ensures r.PortTooLong? <==> |host| <= HOST_SIZE && |port| > PORT_SIZE
    ensures r.Ok? ==> r.value.Valid() && fresh(r.value.Repr()) && r.value.Wire() == HeaderBytes(host, port, 0)
  {
    if |host| > HOST_SIZE {
      return HostTooLong;
    }
    if |port| > PORT_SIZE {
      return PortTooLong;
    }
    var header := new StreamRequestHeader();
    Copy(header.version, VERSION);
    header.hostLength := Length8(|host|);
    Copy(header.host, host);
    header.portLength := Length8(|port|);
    Copy(header.port, port);
    assert header.version[..] == VERSION;
    assert header.host[..] == Pad(host, HOST_SIZE) && header.port[..] == Pad(port, PORT_SIZE);
    header.UpdateChecksum();
    return Ok(header);
  }

  // The header of a health check carries no target and asks for an immediate close.
  method NewStreamHealthCheckHeader() returns (header: StreamRequestHeader)
    ensures header.Valid() && fresh(header.Repr()) && header.Wire() == HeaderBytes([], [], 1)
  {
    header := new StreamRequestHeader();
    Copy(header.version, VERSION);
    header.flag := header.flag | FLAG_CLOSE_IMMEDIATELY;
    assert header.version[..] == VERSION && header.host[..] == Pad([], HOST_SIZE) && header.port[..] == Pad([], PORT_SIZE);
    header.UpdateChecksum();
  }

  // Reads a received buffer as a header: a copy, byte for byte.
  method ToHeader(buf: array<Byte>) returns (header: StreamRequestHeader)
    requires buf.Length == HEADER_SIZE
    ensures header.Valid() && fresh(header.Repr()) && header.Wire() == buf[..]
  {
    header := new StreamRequestHeader();
    Copy(header.version, buf[..VERSION_SIZE]);
    header.hostLength := buf[VERSION_SIZE];
    Copy(header.host, buf[HOST_AT..HOST_AT + HOST_SIZE]);
    header.portLength := buf[PORT_AT - 1];
    Copy(header.port, buf[PORT_AT..PORT_AT + PORT_SIZE]);
    header.flag := buf[COVERED_SIZE - 1];
    Copy(header.checksum, buf[COVERED_SIZE..]);
    assert header.Wire() == Parts(buf[..]) by {
      hide ValidBytes;
      assert header.version[..] == buf[..][..VERSION_SIZE] && header.host[..] == buf[..][HOST_AT..HOST_AT + HOST_SIZE];
      assert header.port[..] == buf[..][PORT_AT..PORT_AT + PORT_SIZE] && header.checksum[..] == buf[..][COVERED_SIZE..];
    }
    Reassemble(buf[..]);
  }

  ghost function Parts(s: seq<Byte>): seq<Byte>
    requires |s| == HEADER_SIZE
  {
    s[..VERSION_SIZE] + [s[VERSION_SIZE]] + s[HOST_AT..HOST_AT + HOST_SIZE] + [s[PORT_AT - 1]]
    + s[PORT_AT..PORT_AT + PORT_SIZE] + [s[COVERED_SIZE - 1]] + s[COVERED_SIZE..]
  }

  lemma Reassemble(s: seq<Byte>)
    requires |s| == HEADER_SIZE
    ensures Parts(s) == s
  {
  }

  // A header copied over the wire byte for byte.
  method Transfer(sent: StreamRequestHeader) returns (got: StreamRequestHeader)
    requires sent.Valid()
    ensures got.Valid() && fresh(got.Repr()) && got.Wire() == sent.Wire()
  {
    var wire := sent.version[..] + [sent.hostLength] + sent.host[..] + [sent.portLength] + sent.port[..]
                + [sent.flag] + sent.checksum[..];
    assert wire == sent.Wire();
    var buf := new Byte[HEADER_SIZE];
    Copy(buf, wire);
    assert buf[..] == wire;
    got := ToHeader(buf);
  }

  // Send and receive: whatever fits comes back, the receiver accepts it and keeps the stream open.
  method SendReceive(host: seq<Byte>, port: seq<Byte>) returns (ok: bool, h: seq<Byte>, p: seq<Byte>, close: bool)
    requires |host| <= HOST_SIZE && |port| <= PORT_SIZE
    ensures ok && h == host && p == port && !close
  {
    RoundTrip(host, port, 0);
    var r := NewStreamRequestHeader(host, port);
    var got := Transfer(r.value);
    got.WireParts();
    ok := got.ValidateHeader();
    h, p := got.GetHostPort();
    close := got.ShouldCloseImmediately();
  }

  // The receiver of a health check accepts it and closes the stream at once.
  method SendHealthCheck() returns (ok: bool, close: bool)
    ensures ok && close
  {
    RoundTrip([], [], FLAG_CLOSE_IMMEDIATELY);
    var sent := NewStreamHealthCheckHeader();
    var got := Transfer(sent);
    ok := got.ValidateHeader();
    close := got.ShouldCloseImmediately();
  }

  // A checksum is written with its highest byte first.
  lemma BigEndian()
    ensures PutUint32(0x0102_0304) == [1, 2, 3, 4] && Uint32([1, 2, 3, 4]) == 0x0102_0304
  {
    assert Bytes(0x0102_0304) == (4, 3, 2, 1);
    assert PutUint32(0x0102_0304) == [1, 2, 3, 4];
    Uint32RoundTrip(0x0102_0304);
  }
}
