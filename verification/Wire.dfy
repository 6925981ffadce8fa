/** Packets on their way out and in: the byte order of their fields, turned in place around the sending. */
module Wire {
  import opened Arith
  import opened Checksum

  const HEADER: nat := 12
  const PAYLOAD: nat := 500

  /** The fields as numbers of the host, which keeps the low byte of a number first. */
  datatype Header = Header(cksum: nat, len: nat, ackno: nat, seqno: nat)
  {
    predicate Valid()
    {
      cksum < 0x1_0000 && len < 0x1_0000 && ackno < WORD && seqno < WORD
    }

    /** The bytes of the fields in memory. */
    function Memory(): (m: seq<byte>)
      requires Valid()
      ensures |m| == HEADER
    {
      Low2(cksum) + Low2(len) + Low4(ackno) + Low4(seqno)
    }

    /** htons and htonl on the fields that the packet has. */
    function Hton(): (h: Header)
      requires Valid()
      ensures h.Valid()
    {
      Header(cksum, Swap16(len), Swap32(ackno), if len >= HEADER then Swap32(seqno) else seqno)
    }

    function Ntoh(): (h: Header)
      requires Valid()
      ensures h.Valid()
    {
      Header(cksum, Swap16(len), Swap32(ackno), if Swap16(len) >= HEADER then Swap32(seqno) else seqno)
    }
  }

  function Swap16(v: nat): (r: nat)
    requires v < 0x1_0000
    ensures r < 0x1_0000
  {
    v % 256 * 256 + v / 256
  }

  function Swap32(v: nat): (r: nat)
    requires v < WORD
    ensures r < WORD
  {
    Swap16(v % 0x1_0000) * 0x1_0000 + Swap16(v / 0x1_0000)
  }

  /** Low byte first. */
  function Low2(v: nat): (s: seq<byte>)
    requires v < 0x1_0000
    ensures |s| == 2
  {
    [v % 256, v / 256]
  }

  function Low4(v: nat): (s: seq<byte>)
    requires v < WORD
    ensures |s| == 4
  {
    Low2(v % 0x1_0000) + Low2(v / 0x1_0000)
  }

  /** High byte first. */
  function High2(v: nat): (s: seq<byte>)
    requires v < 0x1_0000
    ensures |s| == 2
  {
    [v / 256, v % 256]
  }

  function High4(v: nat): (s: seq<byte>)
    requires v < WORD
    ensures |s| == 4
  {
    High2(v / 0x1_0000) + High2(v % 0x1_0000)
  }

  lemma SwapIsHigh2(v: nat)
    requires v < 0x1_0000
    ensures Low2(Swap16(v)) == High2(v) && Swap16(Swap16(v)) == v
  {
    DivModUnique(v % 256, 256, v / 256);
  }

  lemma SwapIsHigh4(v: nat)
    requires v < WORD
    ensures Low4(Swap32(v)) == High4(v) && Swap32(Swap32(v)) == v
  {
    var low, high := v % 0x1_0000, v / 0x1_0000;
    SwapIsHigh2(low);
    SwapIsHigh2(high);
    DivModUnique(Swap16(low), 0x1_0000, Swap16(high));
  }

  /** Turned out and in again, or in and out again, a header of any length is as it was: the test on the length,
      once before the turn and once after it, finds the same. */
  lemma TurnsUndo(h: Header)
    requires h.Valid()
    ensures h.Hton().Ntoh() == h && h.Ntoh().Hton() == h
  {
    SwapIsHigh2(h.len);
    SwapIsHigh4(h.ackno);
    SwapIsHigh4(h.seqno);
  }

  /** What follows the checksum on the wire: the other fields, high bytes first, and the payload. */
  function Body(h: Header, data: seq<byte>): (b: seq<byte>)
    requires h.Valid() && HEADER <= h.len <= HEADER + |data|
    ensures |b| == h.len - 2
  {
    Fields(h) + data[..h.len - HEADER]
  }

  function Fields(h: Header): (f: seq<byte>)
    requires h.Valid()
    ensures |f| == HEADER - 2
  {
    High2(h.len) + High4(h.ackno) + High4(h.seqno)
  }

  /** A data packet on the wire, but for the checksum. */
  function DataPacket(h: Header, data: seq<byte>): (p: seq<byte>)
    requires h.Valid() && HEADER <= h.len <= HEADER + |data|
    ensures |p| == h.len
  {
    [0, 0] + Body(h, data)
  }

  /** Length, acknowledgement number and sequence number, in this order, high bytes first, and then the payload. */
  lemma PacketExample(h: Header, data: seq<byte>)
    requires h == Header(0, 14, 0x01020304, 0x05060708) && data == [9, 10, 11]
    ensures DataPacket(h, data) == [0, 0, 0, 14, 1, 2, 3, 4, 5, 6, 7, 8, 9, 10]
  {
    assert High2(14) == [0, 14] && High4(0x01020304) == [1, 2, 3, 4] && High4(0x05060708) == [5, 6, 7, 8];
    assert data[..2] == [9, 10];
  }

  lemma TurnedMemory(h: Header, cksum: nat)
    requires h.Valid() && h.len >= HEADER && cksum < 0x1_0000
    ensures h.Hton().(cksum := cksum).Memory() == Low2(cksum) + Fields(h)
  {
    SwapIsHigh2(h.len);
    SwapIsHigh4(h.ackno);
    SwapIsHigh4(h.seqno);
    MemoryOf(h.Hton().(cksum := cksum), Low2(cksum), High2(h.len), High4(h.ackno), High4(h.seqno));
  }

  lemma MemoryOf(t: Header, a: seq<byte>, b: seq<byte>, c: seq<byte>, d: seq<byte>)
    requires t.Valid() && Low2(t.cksum) == a && Low2(t.len) == b && Low4(t.ackno) == c && Low4(t.seqno) == d
    ensures t.Memory() == a + (b + c + d)
  {
    Regroup(a, b, c, d);
  }

  lemma Regroup(a: seq<byte>, b: seq<byte>, c: seq<byte>, d: seq<byte>)
    ensures a + b + c + d == a + (b + c + d)
  {
  }

  /** The first n bytes of the packet in memory. */
  function Prefix(h: Header, data: seq<byte>, n: nat): seq<byte>
    requires h.Valid() && n <= HEADER + |data|
  {
    (h.Memory() + data)[..n]
  }

  lemma TakeAcross(front: seq<byte>, fields: seq<byte>, data: seq<byte>, k: nat)
    requires k <= |data|
    ensures (front + fields + data)[..|front| + |fields| + k] == front + (fields + data[..k])
  {
  }

  lemma TurnedPrefix(h: Header, data: seq<byte>, cksum: nat)
    requires h.Valid() && HEADER <= h.len <= HEADER + |data| && cksum < 0x1_0000
    ensures Prefix(h.Hton().(cksum := cksum), data, h.len) == Low2(cksum) + Body(h, data)
  {
    TurnedMemory(h, cksum);
    TakeAcross(Low2(cksum), Fields(h), data, h.len - HEADER);
  }

  lemma DropTwo(a: byte, b: byte, rest: seq<byte>)
    ensures ([a, b] + rest)[2..] == rest
  {
  }

  /** Sealing puts the checksum of the packet with two zeros in their place. */
  lemma SealedIs(body: seq<byte>, c: nat)
    requires c == Complement(WordSum([0, 0] + body))
    ensures c < 0x1_0000 && Sealed([0, 0] + body) == Low2(Swap16(c)) + body
  {
    DropTwo(0, 0, body);
    SwapIsHigh2(c);
  }

  class PacketBuffer {
    var header: Header
    var data: array<byte>

    ghost predicate Valid()
      reads this
    {
      header.Valid() && data.Length == PAYLOAD
    }

    method PktHton()
      requires Valid()
      modifies this`header
      ensures Valid() && header == old(header).Hton()
    {
      if header.len >= HEADER {
        header := header.(seqno := Swap32(header.seqno));
      }
      header := header.(len := Swap16(header.len));
      header := header.(ackno := Swap32(header.ackno));
    }

    method PktNtoh()
      requires Valid()
      modifies this`header
      ensures Valid() && header == old(header).Ntoh()
    {
      header := header.(len := Swap16(header.len));
      header := header.(ackno := Swap32(header.ackno));
      if header.len >= HEADER {
        header := header.(seqno := Swap32(header.seqno));
      }
    }

    /** send_data_pkt: what goes out is the sealed packet, and but for the checksum the packet is left as it was, so
        it can be sent again. */
    method SendDataPkt() returns (sent: seq<byte>)
      requires Valid() && HEADER <= header.len <= MAX_PACKET
      modifies this`header
      ensures Valid() && sent == Sealed(DataPacket(old(header), data[..]))
      ensures header.(cksum := old(header.cksum)) == old(header)
    {
      ghost var h, body := header, Body(header, data[..]);
      var pktLen := header.len;
      PktHton();
      header := header.(cksum := 0);
      TurnedPrefix(h, data[..], 0);
      var c := Cksum(Prefix(header, data[..], pktLen));
      SealedIs(body, c);
      header := header.(cksum := Swap16(c));
      TurnedPrefix(h, data[..], Swap16(c));
      sent := Prefix(header, data[..], pktLen);
      TurnsUndo(h.(cksum := Swap16(c)));
      PktNtoh();
    }

    /** The timer sends a packet from the ring, and sends it again: both times the same bytes go out, and the receiver,
        whatever lies behind them in its buffer, accepts them. */
    method RetransmitTwice(buffer: seq<byte>) returns (first: seq<byte>, second: seq<byte>)
      requires Valid() && HEADER <= header.len <= MAX_PACKET && |buffer| == MAX_PACKET
      modifies this`header
      ensures first == second && |first| == old(header.len)
      ensures Matches(first + buffer[|first|..])
    {
      first := SendDataPkt();
      IsPacket(header, data[..]);
      SealedMatches(DataPacket(header, data[..]), first + buffer[|first|..]);
      second := SendDataPkt();
    }
  }

  lemma IsPacket(h: Header, data: seq<byte>)
    requires h.Valid() && HEADER <= h.len <= HEADER + |data| && h.len <= MAX_PACKET
    ensures Packet(DataPacket(h, data))
  {
    var p := DataPacket(h, data);
    assert p[2] == h.len / 256 && p[3] == h.len % 256;
  }

  /** The header that the receiver finds in its buffer, before it turns it. */
  function Found(b: seq<byte>): (h: Header)
    requires |b| >= HEADER
    ensures h.Valid()
  {
    Header(Number2(b[0], b[1]), Number2(b[2], b[3]), Number4(b[4..8]), Number4(b[8..12]))
  }

  function Number2(low: byte, high: byte): (v: nat)
    ensures v < 0x1_0000
  {
    high as nat * 256 + low as nat
  }

  function Number4(b: seq<byte>): (v: nat)
    requires |b| == 4
    ensures v < WORD
  {
    Number2(b[2], b[3]) * 0x1_0000 + Number2(b[0], b[1])
  }

  lemma Number2Is(v: nat)
    requires v < 0x1_0000
    ensures var s := Low2(v); Number2(s[0], s[1]) == v
  {
  }

  lemma Number4Is(v: nat)
    requires v < WORD
    ensures Number4(Low4(v)) == v
  {
    Number2Is(v % 0x1_0000);
    Number2Is(v / 0x1_0000);
  }

  lemma FoundInMemory(h: Header, rest: seq<byte>)
    requires h.Valid()
    ensures Found(h.Memory() + rest) == h
  {
    var b := h.Memory() + rest;
    Number2Is(h.cksum);
    Number2Is(h.len);
    Number4Is(h.ackno);
    Number4Is(h.seqno);
    assert b[4..8] == Low4(h.ackno) && b[8..12] == Low4(h.seqno);
  }

  /** What was sent arrives with the length, the numbers and the payload that the sender's packet had. */
  lemma ReceivedAsSent(h: Header, data: seq<byte>, buffer: seq<byte>)
    requires h.Valid() && HEADER <= h.len <= HEADER + |data| && h.len <= MAX_PACKET
    requires Holds(buffer, Sealed(DataPacket(h, data)))
    ensures Matches(buffer) && var got := Found(buffer).Ntoh();
      && got.(cksum := h.cksum) == h
      && buffer[HEADER..got.len] == data[..got.len - HEADER]
  {
    IsPacket(h, data);
    SealedMatches(DataPacket(h, data), buffer);
    var c := Complement(WordSum(DataPacket(h, data)));
    SealedIs(Body(h, data), c);
    var turned := h.Hton().(cksum := Swap16(c));
    TurnedMemory(h, Swap16(c));
    var rest := Behind(Low2(Swap16(c)), Fields(h), data[..h.len - HEADER], buffer);
    FoundInMemory(turned, rest);
    TurnsUndo(h.(cksum := Swap16(c)));
  }

  /** What lies behind the header in the buffer starts with the payload. */
  lemma Behind(front: seq<byte>, fields: seq<byte>, payload: seq<byte>, buffer: seq<byte>) returns (rest: seq<byte>)
    requires |front| + |fields| == HEADER && front + (fields + payload) <= buffer
    ensures buffer == front + fields + rest && buffer[HEADER..HEADER + |payload|] == payload
  {
    rest := buffer[HEADER..];
    var p := front + (fields + payload);
    assert p[..HEADER] == front + fields && p[HEADER..] == payload;
  }
}
