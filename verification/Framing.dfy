/** Packets on a byte stream: how they are framed, and how they are cut out of whatever chunks arrive. */
module Framing {

  import opened Bytes

  const HEAD_SIZE: nat := 8
  const MAX_MSG_LEN: nat := 16 * 1024 * 1024

  datatype Packet = Packet(kind: u32, data: seq<byte>)

  /** Payloads that the decoder accepts. */
  predicate Sendable(p: Packet) { 1 <= |p.data| <= MAX_MSG_LEN }

  function Encode(p: Packet): seq<byte>
    requires |p.data| < 0x1_0000_0000
  {
    Be32(p.kind) + Be32(|p.data|) + p.data
  }

  /** A frame on the wire: four bytes of kind, four bytes of payload length, most significant first, and the payload. */
  lemma FrameBytes(p: Packet)
    requires |p.data| < 0x1_0000_0000
    ensures var s: seq<nat> := Encode(p);
            && |s| == 8 + |p.data| && s[8..] == p.data
            && s[0] * 0x100_0000 + s[1] * 0x1_0000 + s[2] * 0x100 + s[3] == p.kind
            && s[4] * 0x100_0000 + s[5] * 0x1_0000 + s[6] * 0x100 + s[7] == |p.data|
  {
    BeBytes(p.kind);
    BeBytes(|p.data|);
  }

  lemma BeBytes(x: u32)
    ensures var b: seq<nat> := Be32(x);
            |b| == 4 && b[0] * 0x100_0000 + b[1] * 0x1_0000 + b[2] * 0x100 + b[3] == x
  {
  }

  predicate AllSendable(ps: seq<Packet>) {
    forall i {:trigger Sendable(ps[i])} :: 0 <= i < |ps| ==> Sendable(ps[i])
  }

  lemma TailSendable(ps: seq<Packet>)
    requires AllSendable(ps) && ps != []
    ensures Sendable(ps[0]) && AllSendable(ps[1..])
  {
    forall i | 0 <= i < |ps[1..]| ensures Sendable(ps[1..][i]) { assert Sendable(ps[i + 1]); }
  }

  function EncodeAll(ps: seq<Packet>): seq<byte>
    requires AllSendable(ps)
  {
    if ps == [] then []
    else
      assert Sendable(ps[0]) && AllSendable(ps[1..]) by { TailSendable(ps); }
      Encode(ps[0]) + EncodeAll(ps[1..])
  }

  datatype Decoded = TooSmall | BadPacket | Got(packet: Packet)

  function KindOf(s: seq<byte>): u32
    requires |s| >= HEAD_SIZE
  {
    FromBe32(s[..4])
  }

  function LengthOf(s: seq<byte>): u32
    requires |s| >= HEAD_SIZE
  {
    FromBe32(s[4..8])
  }

  /** What the next packet of a stream is. */
  function Decode(s: seq<byte>): Decoded {
    if |s| < HEAD_SIZE then TooSmall
    else if LengthOf(s) > MAX_MSG_LEN || LengthOf(s) == 0 then BadPacket
    else if |s| < HEAD_SIZE + LengthOf(s) then TooSmall
    else Got(Packet(KindOf(s), s[HEAD_SIZE..HEAD_SIZE + LengthOf(s)]))
  }

  /** Decoding gives back the first packet of a stream, whatever follows it, if and only if its payload has between
      one byte and 16 MiB; any other frame is a bad packet. */
  lemma RoundTrip(p: Packet, rest: seq<byte>)
    requires |p.data| < 0x1_0000_0000
    ensures Decode(Encode(p) + rest) == if Sendable(p) then Got(p) else BadPacket
  {
    var s := Encode(p) + rest;
    assert s[..4] == Be32(p.kind);
    assert s[4..8] == Be32(|p.data|);
    Be32Inverse(p.kind);
    Be32Inverse(|p.data|);
    if Sendable(p) { assert s[HEAD_SIZE..HEAD_SIZE + |p.data|] == p.data; }
  }

  /** What is decoded stands encoded at the front of the stream. */
  lemma GotIsFront(s: seq<byte>)
    requires Decode(s).Got?
    ensures Sendable(Decode(s).packet) && Encode(Decode(s).packet) <= s
  {
    var p := Decode(s).packet;
    Be32Of(s[..4]);
    Be32Of(s[4..8]);
    assert s == s[..4] + s[4..8] + s[8..HEAD_SIZE + |p.data|] + s[HEAD_SIZE + |p.data|..];
  }

  lemma Be32Of(b: seq<byte>)
    requires |b| == 4
    ensures Be32(FromBe32(b)) == b
  {
    var hi, lo := FromBe16(b[..2]), FromBe16(b[2..]);
    assert FromBe32(b) / 0x1_0000 == hi && FromBe32(b) % 0x1_0000 == lo;
    assert Be16(hi) == b[..2] && Be16(lo) == b[2..];
  }

  // ----- The receive list

  function Flatten(chunks: seq<seq<byte>>): seq<byte> {
    if chunks == [] then [] else chunks[0] + Flatten(chunks[1..])
  }

  lemma {:induction false} FlattenAppend(chunks: seq<seq<byte>>, c: seq<byte>)
    ensures Flatten(chunks + [c]) == Flatten(chunks) + c
    decreases |chunks|
  {
    if chunks == [] {
      assert chunks + [c] == [c];
    } else {
      assert (chunks + [c])[1..] == chunks[1..] + [c];
      FlattenAppend(chunks[1..], c);
    }
  }

  class Peer {
    var recvList: seq<seq<byte>>

    constructor ()
      ensures recvList == []
    {
      recvList := [];
    }

    function Stream(): seq<byte>
      reads this
    {
      Flatten(recvList)
    }

    /** Queues what arrived; an empty chunk is ignored. */
    method AddRecvData(chunk: seq<byte>)
      modifies this
      ensures Stream() == old(Stream()) + chunk
    {
      if |chunk| == 0 { return; }
      FlattenAppend(recvList, chunk);
      recvList := recvList + [chunk];
    }

    /** Pops buffers and appends them until there are enough bytes or none are left. */
    method Gather(start: seq<byte>, enough: nat) returns (buffer: seq<byte>)
      modifies this
      ensures buffer + Stream() == start + old(Stream())
      ensures |buffer| < enough ==> recvList == []
    {
      buffer := start;
      while |buffer| < enough && recvList != []
        invariant buffer + Stream() == start + old(Stream())
        decreases |recvList|
      {
        assert buffer + (recvList[0] + Flatten(recvList[1..])) == (buffer + recvList[0]) + Flatten(recvList[1..]);
        buffer := buffer + recvList[0];
        recvList := recvList[1..];
      }
    }

    method PushFront(buffer: seq<byte>)
      modifies this
      ensures Stream() == buffer + old(Stream())
    {
      recvList := [buffer] + recvList;
      assert recvList[1..] == old(recvList);
    }

    /** Cuts the next packet out of the receive list. A packet that is not complete yet leaves the stream as it was;
        a bad length drops everything that was received. */
    method DecodePacket() returns (r: Decoded)
      modifies this
      ensures r == Decode(old(Stream()))
      ensures r.TooSmall? ==> Stream() == old(Stream())
      ensures r.BadPacket? ==> Stream() == []
      ensures r.Got? ==> Sendable(r.packet) && old(Stream()) == Encode(r.packet) + Stream()
    {
      ghost var s := Stream();
      if recvList == [] { return TooSmall; }
      var buffer := recvList[0];
      recvList := recvList[1..];
      buffer := Gather(buffer, HEAD_SIZE);
      if |buffer| < HEAD_SIZE {
        PushFront(buffer);
        return TooSmall;
      }
      assert s[..4] == buffer[..4] && s[4..8] == buffer[4..8];
      var msgLen := LengthOf(buffer);
      if msgLen > MAX_MSG_LEN || msgLen == 0 {
        recvList := [];
        return BadPacket;
      }
      var packetSize := HEAD_SIZE + msgLen;
      buffer := Gather(buffer, packetSize);
      if |buffer| < packetSize {
        PushFront(buffer);
        return TooSmall;
      }
      assert s == buffer + Stream();
      if |buffer| > packetSize { PushFront(buffer[packetSize..]); }
      assert s == buffer[..packetSize] + Stream();
      assert buffer[..packetSize] == s[..packetSize];
      GotIsFront(s);
      return Got(Packet(KindOf(buffer), buffer[HEAD_SIZE..packetSize]));
    }
  }

  // ----- Any chunking

  /** Once enough bytes are there, more bytes do not change what is decoded. */
  lemma DecodeStable(s: seq<byte>, more: seq<byte>)
    requires !Decode(s).TooSmall?
    ensures Decode(s + more) == Decode(s)
  {
    var t := s + more;
    assert t[..4] == s[..4] && t[4..8] == s[4..8];
    if Decode(s).Got? {
      var n := HEAD_SIZE + LengthOf(s);
      assert t[HEAD_SIZE..n] == s[HEAD_SIZE..n];
    }
  }

  /** What the sender's stream still holds from packet `k` on. */
  function Rest(ps: seq<Packet>, k: nat, tail: seq<byte>): seq<byte>
    requires k <= |ps| && AllSendable(ps)
  {
    SuffixSendable(ps, k);
    EncodeAll(ps[k..]) + tail
  }

  lemma SuffixSendable(ps: seq<Packet>, k: nat)
    requires AllSendable(ps) && k <= |ps|
    ensures AllSendable(ps[k..])
  {
    forall i | 0 <= i < |ps[k..]| ensures Sendable(ps[k..][i]) { assert Sendable(ps[k + i]); }
  }

  lemma RestNext(ps: seq<Packet>, k: nat, tail: seq<byte>)
    requires AllSendable(ps) && k < |ps| && Sendable(ps[k])
    ensures Rest(ps, k, tail) == Encode(ps[k]) + Rest(ps, k + 1, tail)
    ensures Decode(Rest(ps, k, tail)) == Got(ps[k])
  {
    assert ps[k..][1..] == ps[k + 1..];
    assert Sendable(ps[k]);
    assert Rest(ps, k, tail) == Encode(ps[k]) + Rest(ps, k + 1, tail);
    RoundTrip(ps[k], Rest(ps, k + 1, tail));
  }

  /** A partial stream that starts at packet `k` yields that packet or nothing, never garbage. */
  lemma NextDecoded(s: seq<byte>, later: seq<byte>, ps: seq<Packet>, k: nat, tail: seq<byte>)
    requires AllSendable(ps) && k <= |ps| && s + later == Rest(ps, k, tail) && Decode(tail) == TooSmall
    ensures Decode(s).TooSmall? || (k < |ps| && Decode(s) == Got(ps[k]))
  {
    if !Decode(s).TooSmall? { DecodeStable(s, later); }
    if k < |ps| { assert Sendable(ps[k]); RestNext(ps, k, tail); } else { assert ps[k..] == []; assert Rest(ps, k, tail) == tail; }
  }

  lemma Cancel(front: seq<byte>, x: seq<byte>, y: seq<byte>)
    requires front + x == front + y
    ensures x == y
  {
    assert (front + x)[|front|..] == x && (front + y)[|front|..] == y;
  }

  lemma StreamNext(s: seq<byte>, s': seq<byte>, later: seq<byte>, ps: seq<Packet>, k: nat, tail: seq<byte>)
    requires AllSendable(ps) && k < |ps| && Sendable(ps[k]) && s == Encode(ps[k]) + s' && s + later == Rest(ps, k, tail)
    ensures s' + later == Rest(ps, k + 1, tail)
  {
    RestNext(ps, k, tail);
    var front := Encode(ps[k]);
    assert (front + s') + later == front + (s' + later);
    Cancel(front, s' + later, Rest(ps, k + 1, tail));
  }

  /** Cuts all complete packets out of the receive list. */
  method DecodeReady(peer: Peer, ghost later: seq<byte>, ghost ps: seq<Packet>, ghost k: nat, ghost tail: seq<byte>)
    returns (got: seq<Packet>, ghost k': nat)
    requires AllSendable(ps) && k <= |ps| && peer.Stream() + later == Rest(ps, k, tail) && Decode(tail) == TooSmall
    modifies peer
    ensures k <= k' <= |ps| && got == ps[k..k'] && peer.Stream() + later == Rest(ps, k', tail)
    ensures Decode(peer.Stream()) == TooSmall
  {
    got, k' := [], k;
    while true
      invariant k <= k' <= |ps| && got == ps[k..k'] && peer.Stream() + later == Rest(ps, k', tail)
      decreases |ps| - k'
    {
      NextDecoded(peer.Stream(), later, ps, k', tail);
      ghost var s := peer.Stream();
      var r := peer.DecodePacket();
      if !r.Got? { return; }
      StreamNext(s, peer.Stream(), later, ps, k', tail);
      got := got + [r.packet];
      k' := k' + 1;
    }
  }

  /** However the sender's bytes are cut into chunks, exactly its packets come out, in order, and the bytes of an
      incomplete last packet stay in the receive list. */
  method ReceiveAll(peer: Peer, chunks: seq<seq<byte>>, ghost ps: seq<Packet>, ghost tail: seq<byte>)
    returns (got: seq<Packet>)
    requires peer.Stream() == [] && AllSendable(ps) && Decode(tail) == TooSmall
    requires Flatten(chunks) == EncodeAll(ps) + tail
    modifies peer
    ensures got == ps && peer.Stream() == tail
  {
    got := [];
    ghost var k := 0;
    assert ps[0..] == ps;
    assert chunks[0..] == chunks;
    var i := 0;
    while i < |chunks|
      invariant 0 <= i <= |chunks| && k <= |ps| && got == ps[..k]
      invariant peer.Stream() + Flatten(chunks[i..]) == Rest(ps, k, tail)
      invariant Decode(peer.Stream()) == TooSmall
    {
      assert chunks[i..][1..] == chunks[i + 1..];
      ghost var later := Flatten(chunks[i + 1..]);
      assert peer.Stream() + (chunks[i] + later) == (peer.Stream() + chunks[i]) + later;
      peer.AddRecvData(chunks[i]);
      var more;
      ghost var k';
      more, k' := DecodeReady(peer, later, ps, k, tail);
      assert ps[..k] + ps[k..k'] == ps[..k'];
      got := got + more;
      k := k';
      i := i + 1;
    }
    assert Flatten(chunks[i..]) == [];
    assert peer.Stream() + [] == peer.Stream();
    if k < |ps| {
      assert Sendable(ps[k]);
      RestNext(ps, k, tail);
    }
    assert ps[|ps|..] == [] && Rest(ps, |ps|, tail) == tail;
  }
}
