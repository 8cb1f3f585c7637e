/**
 Framing of peer-to-peer messages: bytes arrive in chunks of any size and are
 cut into messages of a 24-byte header and as many bytes as it announces.
 */
module NetMessage {
  import opened Numbers

  type Byte = x: nat | x < 256

  const HEADER_SIZE: nat := 24
  const MAX_SIZE: nat := 0x0600_0000
  const MAX_PROTOCOL_MESSAGE_LENGTH: nat := 32 * 1000 * 1000

  // The announced size: four bytes, lowest first.
  function MessageSize(header: seq<Byte>): nat
    requires |header| == HEADER_SIZE
  {
    header[16] as nat + 0x100 * header[17] as nat + 0x1_0000 * header[18] as nat + 0x100_0000 * header[19] as nat
  }

  // ------------------------------------------------- one byte at a time

  /** A message as far as it has been received. */
  datatype Msg = Msg(header: seq<Byte>, data: seq<Byte>)

  datatype Inbox = Inbox(messages: seq<Msg>, rejected: bool)

  predicate Complete(m: Msg) {
    |m.header| == HEADER_SIZE && |m.data| == MessageSize(m.header)
  }

  function Last(s: Inbox): Msg
    requires s.messages != []
  {
    s.messages[|s.messages| - 1]
  }

  // The next byte starts a message.
  predicate Idle(s: Inbox) {
    s.messages == [] || Complete(Last(s))
  }

  predicate TooLong(header: seq<Byte>) {
    |header| == HEADER_SIZE && MessageSize(header) > MAX_PROTOCOL_MESSAGE_LENGTH
  }

  function WithLast(s: Inbox, m: Msg): Inbox
    requires s.messages != []
  {
    s.(messages := s.messages[|s.messages| - 1 := m])
  }

  // What one more byte does: nothing after a rejection; otherwise it goes into
  // the header, whose last byte may lead to rejection, or into the data.
  function FeedByte(s: Inbox, b: Byte): Inbox {
    if s.rejected then s
    else if Idle(s) then s.(messages := s.messages + [Msg([b], [])])
    else if |Last(s).header| < HEADER_SIZE then
      var header := Last(s).header + [b];
      WithLast(s, Last(s).(header := header)).(rejected := TooLong(header))
    else WithLast(s, Last(s).(data := Last(s).data + [b]))
  }

  function Feed(s: Inbox, bytes: seq<Byte>): Inbox {
    if bytes == [] then s else FeedByte(Feed(s, bytes[..|bytes| - 1]), bytes[|bytes| - 1])
  }

  // Feeding in two chunks is feeding at once.
  lemma {:induction false} FeedTwice(s: Inbox, a: seq<Byte>, b: seq<Byte>)
    ensures Feed(Feed(s, a), b) == Feed(s, a + b)
  {
    if b == [] {
      assert a + b == a;
    } else {
      assert (a + b)[..|a + b| - 1] == a + b[..|b| - 1];
      FeedTwice(s, a, b[..|b| - 1]);
    }
  }

  ghost function Joined(chunks: seq<seq<Byte>>): seq<Byte> {
    if chunks == [] then [] else Joined(chunks[..|chunks| - 1]) + chunks[|chunks| - 1]
  }

  // The bytes of all messages, in order.
  ghost function Flat(messages: seq<Msg>): seq<Byte> {
    if messages == [] then [] else Flat(messages[..|messages| - 1]) + messages[|messages| - 1].header + messages[|messages| - 1].data
  }

  // No message has more than its header and the data it announces, and all
  // but the last are complete.
  ghost predicate Framed(s: Inbox) {
    && (forall i | 0 <= i < |s.messages| - 1 :: Complete(s.messages[i]))
    && (s.messages != [] ==>
          && |Last(s).header| <= HEADER_SIZE
          && (|Last(s).header| < HEADER_SIZE ==> Last(s).data == [])
          && (|Last(s).header| == HEADER_SIZE ==> |Last(s).data| <= MessageSize(Last(s).header)))
  }

  lemma FeedByteKeeps(s: Inbox, b: Byte)
    requires Framed(s)
    ensures Framed(FeedByte(s, b))
    ensures !s.rejected ==> Flat(FeedByte(s, b).messages) == Flat(s.messages) + [b]
  {
    if !s.rejected {
      var t := FeedByte(s, b);
      var n := |s.messages|;
      if Idle(s) {
        assert t.messages[..n] == s.messages;
      } else {
        assert t.messages[..n - 1] == s.messages[..n - 1];
      }
    }
  }

  // Every byte is consumed exactly once: the messages hold all bytes of the
  // stream in order, up to the one that led to rejection.
  lemma {:induction false} FeedKeepsBytes(s: Inbox, bytes: seq<Byte>)
    requires Framed(s) && !s.rejected
    ensures Framed(Feed(s, bytes))
    ensures Flat(Feed(s, bytes).messages) <= Flat(s.messages) + bytes
    ensures !Feed(s, bytes).rejected ==> Flat(Feed(s, bytes).messages) == Flat(s.messages) + bytes
  {
    if bytes == [] {
      assert Flat(s.messages) + bytes == Flat(s.messages);
    } else {
      var n := |bytes| - 1;
      FeedKeepsBytes(s, bytes[..n]);
      FeedByteKeeps(Feed(s, bytes[..n]), bytes[n]);
      assert Flat(s.messages) + bytes == Flat(s.messages) + bytes[..n] + [bytes[n]];
    }
  }

  // ---------------------------------------------------------- blocks of bytes

  // A block that ends inside the header, or with it.
  lemma {:induction false} HeaderBlock(s: Inbox, block: seq<Byte>)
    requires !s.rejected && s.messages != [] && Last(s).data == [] && |Last(s).header| + |block| <= HEADER_SIZE
    requires |Last(s).header| < HEADER_SIZE && !Complete(Last(s))
    ensures var header := Last(s).header + block;
            Feed(s, block) == WithLast(s, Last(s).(header := header)).(rejected := TooLong(header))
  {
    if block == [] {
      assert Last(s).header + block == Last(s).header;
      assert s.messages[|s.messages| - 1 := Last(s)] == s.messages;
    } else {
      var n := |block| - 1;
      HeaderBlock(s, block[..n]);
      assert Last(s).header + block == Last(s).header + block[..n] + [block[n]];
    }
  }

  // A block that starts a message.
  lemma FirstBlock(s: Inbox, block: seq<Byte>)
    requires !s.rejected && Idle(s) && 0 < |block| <= HEADER_SIZE
    ensures Feed(s, block) == Inbox(s.messages + [Msg(block, [])], TooLong(block))
  {
    var first := FeedByte(s, block[0]);
    assert block == [block[0]] + block[1..];
    assert [block[0]][..0] == [];
    assert Feed(s, [block[0]]) == FeedByte(Feed(s, []), block[0]);
    FeedTwice(s, [block[0]], block[1..]);
    HeaderBlock(first, block[1..]);
    assert first.messages[|s.messages| := Msg(block, [])] == s.messages + [Msg(block, [])];
  }

  lemma {:induction false} DataBlock(s: Inbox, block: seq<Byte>)
    requires !s.rejected && s.messages != [] && |Last(s).header| == HEADER_SIZE
    requires |Last(s).data| + |block| <= MessageSize(Last(s).header)
    ensures Feed(s, block) == WithLast(s, Last(s).(data := Last(s).data + block))
  {
    if block == [] {
      assert Last(s).data + block == Last(s).data;
      assert s.messages[|s.messages| - 1 := Last(s)] == s.messages;
    } else {
      var n := |block| - 1;
      DataBlock(s, block[..n]);
      assert Last(s).data + block == Last(s).data + block[..n] + [block[n]];
    }
  }

  // ------------------------------------------------------------ what was sent

  /** A message as the sender writes it. */
  datatype Sent = Sent(start: seq<Byte>, command: seq<Byte>, checksum: seq<Byte>, payload: seq<Byte>) {
    predicate WellFormed() {
      |start| == 4 && |command| == 12 && |checksum| == 4 && |payload| < 0x1_0000_0000
    }
  }

  // A number of 32 bits, its lowest byte first.
  function LittleEndian(n: nat): seq<Byte>
    requires n < 0x1_0000_0000
  {
    [n % 0x100, n / 0x100 % 0x100, n / 0x1_0000 % 0x100, n / 0x100_0000]
  }

  function HeaderOf(m: Sent): seq<Byte>
    requires m.WellFormed()
  {
    m.start + m.command + LittleEndian(|m.payload|) + m.checksum
  }

  function Serialized(ms: seq<Sent>): seq<Byte>
    requires forall i | 0 <= i < |ms| :: ms[i].WellFormed()
  {
    if ms == [] then [] else Serialized(ms[..|ms| - 1]) + (HeaderOf(ms[|ms| - 1]) + ms[|ms| - 1].payload)
  }

  function Received(ms: seq<Sent>): seq<Msg>
    requires forall i | 0 <= i < |ms| :: ms[i].WellFormed()
  {
    seq(|ms|, i requires 0 <= i < |ms| => Msg(HeaderOf(ms[i]), ms[i].payload))
  }

  // The header announces the size of its payload.
  lemma SizeAnnounced(m: Sent)
    requires m.WellFormed()
    ensures |HeaderOf(m)| == 24 && MessageSize(HeaderOf(m)) == |m.payload|
  {
    var h, n := HeaderOf(m), |m.payload|;
    assert h[16] == LittleEndian(n)[0] && h[17] == LittleEndian(n)[1] && h[18] == LittleEndian(n)[2] && h[19] == LittleEndian(n)[3];
    hide HeaderOf;
    Digits(n);
  }

  lemma Digits(n: nat)
    requires n < 0x1_0000_0000
    ensures n == n % 0x100 + 0x100 * (n / 0x100 % 0x100) + 0x1_0000 * (n / 0x1_0000 % 0x100) + 0x100_0000 * (n / 0x100_0000)
  {
    QuotientOfQuotient(n, 0x100, 0x100);
    QuotientOfQuotient(n, 0x1_0000, 0x100);
    QuotientRemainder(n, 0x100);
    QuotientRemainder(n / 0x100, 0x100);
    QuotientRemainder(n / 0x1_0000, 0x100);
  }

  lemma OneMessageArrives(s: Inbox, m: Sent)
    requires !s.rejected && Idle(s) && m.WellFormed()
    ensures var t := Feed(s, HeaderOf(m) + m.payload);
            && (|m.payload| <= 32_000_000 ==> t == Inbox(s.messages + [Msg(HeaderOf(m), m.payload)], false) && Idle(t))
            && (|m.payload| > 32_000_000 ==> t == Inbox(s.messages + [Msg(HeaderOf(m), [])], true))
  {
    SizeAnnounced(m);
    hide Feed, HeaderOf, MessageSize;
    FeedTwice(s, HeaderOf(m), m.payload);
    FirstBlock(s, HeaderOf(m));
    var t := Feed(s, HeaderOf(m));
    if |m.payload| <= 32_000_000 {
      DataBlock(t, m.payload);
      assert [] + m.payload == m.payload;
    } else {
      RejectedStays(t, m.payload);
    }
  }

  lemma ReceivedNext(ms: seq<Sent>)
    requires ms != [] && forall i | 0 <= i < |ms| :: ms[i].WellFormed()
    ensures var n := |ms| - 1; Received(ms) == Received(ms[..n]) + [Msg(HeaderOf(ms[n]), ms[n].payload)]
  {
    hide HeaderOf;
  }

  // Messages that are sent arrive as they are, if none is longer than 32 million
  // bytes; otherwise all before the first such one do, and its header rejects it.
  lemma {:induction false} SentArrive(ms: seq<Sent>)
    requires forall i | 0 <= i < |ms| :: ms[i].WellFormed() && |ms[i].payload| <= 32_000_000
    ensures Feed(Inbox([], false), Serialized(ms)) == Inbox(Received(ms), false) && Idle(Inbox(Received(ms), false))
  {
    hide Feed, HeaderOf;
    if ms == [] {
      FeedNothing(Inbox([], false));
    } else {
      SentArrive(ms[..|ms| - 1]);
      SentNext(ms);
    }
  }

  lemma SentNext(ms: seq<Sent>)
    requires ms != [] && forall i | 0 <= i < |ms| :: ms[i].WellFormed() && |ms[i].payload| <= 32_000_000
    requires var rest := ms[..|ms| - 1];
             Feed(Inbox([], false), Serialized(rest)) == Inbox(Received(rest), false) && Idle(Inbox(Received(rest), false))
    ensures Feed(Inbox([], false), Serialized(ms)) == Inbox(Received(ms), false) && Idle(Inbox(Received(ms), false))
  {
    hide Feed, HeaderOf, Received, Idle;
    var rest, m := ms[..|ms| - 1], ms[|ms| - 1];
    ReceivedNext(ms);
    FeedTwice(Inbox([], false), Serialized(rest), HeaderOf(m) + m.payload);
    OneMessageArrives(Inbox(Received(rest), false), m);
  }

  lemma LongRejected(ms: seq<Sent>, m: Sent)
    requires forall i | 0 <= i < |ms| :: ms[i].WellFormed() && |ms[i].payload| <= 32_000_000
    requires m.WellFormed() && |m.payload| > 32_000_000
    ensures Feed(Inbox([], false), Serialized(ms) + (HeaderOf(m) + m.payload)) == Inbox(Received(ms) + [Msg(HeaderOf(m), [])], true)
  {
    hide Feed, HeaderOf, Received, Serialized;
    SentArrive(ms);
    FeedTwice(Inbox([], false), Serialized(ms), HeaderOf(m) + m.payload);
    OneMessageArrives(Inbox(Received(ms), false), m);
  }

  // ------------------------------------------------------------- the program's form

  /** CNetMessage: buffers with positions, and the size once it is known. */
  datatype CNetMessage = CNetMessage(inData: bool, hdrbuf: seq<Byte>, nHdrPos: nat, nMessageSize: nat,
                                     vRecv: seq<Byte>, nDataPos: nat) {
    ghost predicate Valid() {
      && |hdrbuf| == HEADER_SIZE && nHdrPos <= HEADER_SIZE && nDataPos <= |vRecv|
      && (inData <==> nHdrPos == HEADER_SIZE) && (!inData ==> vRecv == [])
      && (inData ==> nMessageSize == MessageSize(hdrbuf) && |vRecv| <= nMessageSize <= MAX_PROTOCOL_MESSAGE_LENGTH)
    }

    predicate IsComplete() {
      inData && nMessageSize == nDataPos
    }

    ghost function Content(): Msg
      requires nHdrPos <= |hdrbuf| && nDataPos <= |vRecv|
    {
      Msg(hdrbuf[..nHdrPos], vRecv[..nDataPos])
    }
  }

  const NEW_MESSAGE: CNetMessage := CNetMessage(false, seq(HEADER_SIZE, _ => 0), 0, 0, [], 0)

  // memcpy into a buffer at a position.
  function CopyTo(buf: seq<Byte>, pos: nat, bytes: seq<Byte>): (r: seq<Byte>)
    requires pos + |bytes| <= |buf|
    ensures |r| == |buf| && r[..pos + |bytes|] == buf[..pos] + bytes
  {
    buf[..pos] + bytes + buf[pos + |bytes|..]
  }

  // CNetMessage::readHeader; -1 rejects the message.
  method ReadHeader(msg: CNetMessage, pch: seq<Byte>) returns (handled: int, r: CNetMessage)
    requires msg.Valid() && !msg.inData && pch != []
    ensures var n := Min(HEADER_SIZE - msg.nHdrPos, |pch|);
            && r.nHdrPos == msg.nHdrPos + n && r.nHdrPos <= |r.hdrbuf| && r.nDataPos <= |r.vRecv| && r.nDataPos == 0
            && r.Content().header == msg.Content().header + pch[..n] && r.hdrbuf[..r.nHdrPos] == r.Content().header
            && |r.hdrbuf| == HEADER_SIZE && r.vRecv == msg.vRecv
            && (handled == -1 <==> r.nHdrPos == HEADER_SIZE && MessageSize(r.hdrbuf) > MAX_SIZE)
            && (handled != -1 ==> handled == n && (r.inData <==> r.nHdrPos == HEADER_SIZE))
            && (r.inData ==> r.nMessageSize == MessageSize(r.hdrbuf))
  {
    var nRemaining := HEADER_SIZE - msg.nHdrPos;
    var nCopy := Min(nRemaining, |pch|);
    r := msg.(hdrbuf := CopyTo(msg.hdrbuf, msg.nHdrPos, pch[..nCopy]), nHdrPos := msg.nHdrPos + nCopy);
    if r.nHdrPos < HEADER_SIZE {
      return nCopy, r;
    }
    r := r.(nMessageSize := MessageSize(r.hdrbuf));
    if r.nMessageSize > MAX_SIZE {
      return -1, r;
    }
    r := r.(inData := true);
    return nCopy, r;
  }

  // CNetMessage::readData; the buffer grows by up to 256 KiB ahead.
  method ReadData(msg: CNetMessage, pch: seq<Byte>) returns (handled: int, r: CNetMessage)
    requires msg.Valid() && msg.inData && pch != []
    ensures var n := Min(msg.nMessageSize - msg.nDataPos, |pch|);
            && handled == n && r.Valid() && r.inData && r.hdrbuf == msg.hdrbuf
            && r.Content() == msg.Content().(data := msg.Content().data + pch[..n])
  {
    var nRemaining := msg.nMessageSize - msg.nDataPos;
    var nCopy := Min(nRemaining, |pch|);
    r := msg;
    if |r.vRecv| < r.nDataPos + nCopy {
      var size := Min(r.nMessageSize, r.nDataPos + nCopy + 256 * 1024);
      r := r.(vRecv := r.vRecv + seq(size - |r.vRecv|, _ => 0));
    }
    assert r.vRecv[..msg.nDataPos] == msg.vRecv[..msg.nDataPos];
    r := r.(vRecv := CopyTo(r.vRecv, r.nDataPos, pch[..nCopy]), nDataPos := r.nDataPos + nCopy);
    handled := nCopy;
  }

  ghost predicate AllValid(v: seq<CNetMessage>) {
    && (forall i | 0 <= i < |v| :: v[i].Valid()) && (forall i | 0 <= i < |v| - 1 :: v[i].IsComplete())
  }

  ghost predicate Readable(v: seq<CNetMessage>) {
    forall i | 0 <= i < |v| :: v[i].nHdrPos <= |v[i].hdrbuf| && v[i].nDataPos <= |v[i].vRecv|
  }

  ghost function Contents(v: seq<CNetMessage>): seq<Msg>
    requires Readable(v)
  {
    seq(|v|, i requires 0 <= i < |v| => v[i].Content())
  }

  lemma CompleteAlike(m: CNetMessage)
    requires m.Valid()
    ensures m.IsComplete() <==> Complete(m.Content())
    ensures m.inData <==> |m.Content().header| == HEADER_SIZE
    ensures m.inData ==> m.Content().header == m.hdrbuf
  {
  }

  lemma ContentsUpdate(v: seq<CNetMessage>, m: CNetMessage)
    requires v != [] && Readable(v) && m.nHdrPos <= |m.hdrbuf| && m.nDataPos <= |m.vRecv|
    ensures |Contents(v)| == |v| && Contents(v)[|v| - 1] == v[|v| - 1].Content()
    ensures Readable(v[|v| - 1 := m]) && Contents(v[|v| - 1 := m]) == Contents(v)[|v| - 1 := m.Content()]
  {
  }

  // Rounds of the receive loop, seen from the bytes: one block goes into the
  // last message.
  lemma HeaderRound(s: Inbox, was: CNetMessage, block: seq<Byte>, content: Msg)
    requires was.Valid() && !was.inData && s.messages != [] && !s.rejected && Last(s) == was.Content()
    requires was.nHdrPos + |block| <= HEADER_SIZE && content == Msg(was.Content().header + block, [])
    ensures Feed(s, block) == WithLast(s, content).(rejected := TooLong(content.header))
  {
    hide Feed, TooLong, MessageSize;
    CompleteAlike(was);
    HeaderBlock(s, block);
  }

  lemma DataRound(s: Inbox, was: CNetMessage, block: seq<Byte>, content: Msg)
    requires was.Valid() && was.inData && s.messages != [] && !s.rejected && Last(s) == was.Content()
    requires was.nDataPos + |block| <= was.nMessageSize && content == was.Content().(data := was.Content().data + block)
    ensures Feed(s, block) == WithLast(s, content)
  {
    hide Feed, MessageSize;
    CompleteAlike(was);
    DataBlock(s, block);
  }

  lemma FirstRound(v: seq<CNetMessage>, block: seq<Byte>, m: CNetMessage)
    requires AllValid(v) && Readable(v) && (v != [] ==> v[|v| - 1].IsComplete()) && 0 < |block| <= HEADER_SIZE
    requires m.nHdrPos <= |m.hdrbuf| && m.nDataPos <= |m.vRecv| && m.Content() == Msg(block, [])
    ensures Readable(v + [m])
    ensures Feed(Inbox(Contents(v), false), block) == Inbox(Contents(v + [m]), TooLong(block))
  {
    hide Feed, Complete, TooLong, MessageSize;
    var s := Inbox(Contents(v), false);
    if v != [] {
      CompleteAlike(v[|v| - 1]);
      assert Last(s) == v[|v| - 1].Content();
    }
    FirstBlock(s, block);
    assert Contents(v + [m]) == Contents(v) + [m.Content()];
  }

  /** The receiving side of CNode. */
  class Node {
    var vRecvMsg: seq<CNetMessage>
    var nRecvBytes: nat

    ghost predicate Valid()
      reads this
    {
      AllValid(vRecvMsg) && Readable(vRecvMsg)
    }

    constructor ()
      ensures Valid() && vRecvMsg == [] && nRecvBytes == 0
    {
      vRecvMsg, nRecvBytes := [], 0;
    }

    // One round: as many bytes as the message under way can take.
    method Absorb(pch: seq<Byte>) returns (ok: bool, handled: nat)
      requires Valid() && pch != []
      modifies this`vRecvMsg
      ensures Readable(vRecvMsg) && (ok ==> Valid() && 0 < handled <= |pch|)
      ensures ok ==> Feed(Inbox(old(Contents(vRecvMsg)), false), pch[..handled]) == Inbox(Contents(vRecvMsg), false)
      ensures ok ==> vRecvMsg != []
                     && CompleteCount(Contents(vRecvMsg)) == CompleteCount(old(Contents(vRecvMsg))) + if vRecvMsg[|vRecvMsg| - 1].IsComplete() then 1 else 0
      ensures !ok ==> handled == 0 && Rejects(old(Contents(vRecvMsg)), pch, Contents(vRecvMsg))
    {
      hide Feed, TooLong, MessageSize, Contents, Rejects, CompleteCount;
      ghost var v := vRecvMsg;
      var fresh_ := vRecvMsg == [] || vRecvMsg[|vRecvMsg| - 1].IsComplete();
      var msg := if fresh_ then NEW_MESSAGE else vRecvMsg[|vRecvMsg| - 1];
      var h, m := 0, msg;
      if !msg.inData {
        h, m := ReadHeader(msg, pch);
      } else {
        h, m := ReadData(msg, pch);
      }
      if fresh_ {
        vRecvMsg := vRecvMsg + [m];
      } else {
        vRecvMsg := vRecvMsg[|vRecvMsg| - 1 := m];
      }
      ghost var n := if msg.inData then Min(msg.nMessageSize - msg.nDataPos, |pch|) else Min(HEADER_SIZE - msg.nHdrPos, |pch|);
      ghost var block := pch[..n];
      if fresh_ {
        assert m.Content().header == block;
        FirstRound(v, block, m);
      } else {
        ContentsUpdate(v, m);
        if !msg.inData {
          HeaderRound(Inbox(Contents(v), false), msg, block, m.Content());
        } else {
          DataRound(Inbox(Contents(v), false), msg, block, m.Content());
        }
      }
      HeaderVerdict(m);
      RejectedAt(Contents(v), pch, n, Contents(vRecvMsg));
      ok := h >= 0 && !(m.inData && m.nMessageSize > MAX_PROTOCOL_MESSAGE_LENGTH);
      handled := if ok then h else 0;
      if ok {
        CountRound(v, vRecvMsg);
      }
    }

    // Cuts a chunk into messages, just as if its bytes came one by one; false
    // if a message is rejected, after which the peer is disconnected.
    method ReceiveMsgBytes(pch: seq<Byte>) returns (ok: bool, complete: bool)
      requires Valid()
      modifies this
      ensures Readable(vRecvMsg) && nRecvBytes == old(nRecvBytes) + |pch|
      ensures Feed(Inbox(old(Contents(vRecvMsg)), false), pch) == Inbox(Contents(vRecvMsg), !ok)
      ensures ok ==> Valid() && (complete <==> CompleteCount(Contents(vRecvMsg)) > CompleteCount(old(Contents(vRecvMsg))))
    {
      hide Feed, Contents, Rejects, CompleteCount, AllValid, Readable;
      complete := false;
      nRecvBytes := nRecvBytes + |pch|;
      ghost var s := Inbox(Contents(vRecvMsg), false);
      var p := 0;
      assert pch[..0] == [];
      FeedNothing(s);
      while p < |pch|
        invariant 0 <= p <= |pch| && Valid() && Feed(s, pch[..p]) == Inbox(Contents(vRecvMsg), false)
        invariant complete <==> CompleteCount(Contents(vRecvMsg)) > CompleteCount(s.messages)
        invariant CompleteCount(Contents(vRecvMsg)) >= CompleteCount(s.messages)
        invariant nRecvBytes == old(nRecvBytes) + |pch|
      {
        ghost var mid := Contents(vRecvMsg);
        var handled: nat;
        ok, handled := Absorb(pch[p..]);
        if !ok {
          RejectsAll(s, pch, p, mid, Contents(vRecvMsg));
          return;
        }
        FeedTwice(s, pch[..p], pch[p..][..handled]);
        assert pch[..p] + pch[p..][..handled] == pch[..p + handled];
        p := p + handled;
        if vRecvMsg[|vRecvMsg| - 1].IsComplete() {
          complete := true;
        }
      }
      assert pch[..|pch|] == pch;
      ok := true;
    }
  }

  lemma FeedNothing(s: Inbox)
    ensures Feed(s, []) == s
  {
  }

  // How many messages are complete.
  ghost function CompleteCount(messages: seq<Msg>): nat {
    if messages == [] then 0
    else if Complete(messages[|messages| - 1]) then |messages| else |messages| - 1
  }

  // A round works on a message that is not complete before.
  lemma CountRound(v: seq<CNetMessage>, w: seq<CNetMessage>)
    requires AllValid(v) && Readable(v) && AllValid(w) && Readable(w) && w != []
    requires (|w| == |v| + 1 && (v != [] ==> v[|v| - 1].IsComplete())) || (|w| == |v| && !v[|v| - 1].IsComplete())
    ensures CompleteCount(Contents(w)) == CompleteCount(Contents(v)) + if w[|w| - 1].IsComplete() then 1 else 0
  {
    CompleteAlike(w[|w| - 1]);
    if v != [] {
      CompleteAlike(v[|v| - 1]);
    }
    hide Complete;
  }

  lemma {:induction false} RejectedStays(s: Inbox, bytes: seq<Byte>)
    requires s.rejected
    ensures Feed(s, bytes) == s
  {
    if bytes != [] {
      RejectedStays(s, bytes[..|bytes| - 1]);
    }
  }

  // A rejection in the middle decides the whole chunk.
  lemma RejectsAll(s: Inbox, pch: seq<Byte>, p: nat, mid: seq<Msg>, after: seq<Msg>)
    requires p <= |pch| && Feed(s, pch[..p]) == Inbox(mid, false) && Rejects(mid, pch[p..], after)
    ensures Feed(s, pch) == Inbox(after, true)
  {
    hide Feed;
    var rest := pch[p..];
    var n: nat :| n <= |rest| && Feed(Inbox(mid, false), rest[..n]) == Inbox(after, true);
    FeedTwice(s, pch[..p], rest[..n]);
    FeedTwice(s, pch[..p] + rest[..n], rest[n..]);
    RejectedStays(Inbox(after, true), rest[n..]);
    assert pch == pch[..p] + rest[..n] + rest[n..];
  }

  // Some start of the bytes is rejected, and leaves these messages.
  ghost predicate Rejects(before: seq<Msg>, pch: seq<Byte>, after: seq<Msg>) {
    exists n: nat :: n <= |pch| && Feed(Inbox(before, false), pch[..n]) == Inbox(after, true)
  }

  lemma RejectedAt(before: seq<Msg>, pch: seq<Byte>, n: nat, after: seq<Msg>)
    requires n <= |pch|
    ensures Feed(Inbox(before, false), pch[..n]) == Inbox(after, true) ==> Rejects(before, pch, after)
  {
  }

  lemma HeaderVerdict(m: CNetMessage)
    requires |m.hdrbuf| == HEADER_SIZE && m.nHdrPos <= HEADER_SIZE && (m.inData ==> m.nHdrPos == HEADER_SIZE && m.nMessageSize == MessageSize(m.hdrbuf))
    ensures m.nHdrPos == HEADER_SIZE ==> m.hdrbuf[..m.nHdrPos] == m.hdrbuf
    ensures TooLong(m.hdrbuf[..m.nHdrPos]) <==> m.nHdrPos == HEADER_SIZE && MessageSize(m.hdrbuf) > MAX_PROTOCOL_MESSAGE_LENGTH
  {
    assert m.nHdrPos == HEADER_SIZE ==> m.hdrbuf[..m.nHdrPos] == m.hdrbuf;
  }

  // However a stream is cut into chunks, the messages received, the partial
  // message and the verdict are those of the bytes one by one.
  method Run(chunks: seq<seq<Byte>>) returns (node: Node, ok: bool)
    ensures fresh(node) && Readable(node.vRecvMsg)
    ensures Feed(Inbox([], false), Joined(chunks)) == Inbox(Contents(node.vRecvMsg), !ok)
    ensures Framed(Inbox(Contents(node.vRecvMsg), !ok))
    ensures Flat(Contents(node.vRecvMsg)) <= Joined(chunks) && (ok ==> Flat(Contents(node.vRecvMsg)) == Joined(chunks))
  {
    hide Feed, Contents;
    node := new Node();
    ok := true;
    NoContents();
    FeedNothing(Inbox([], false));
    for i := 0 to |chunks|
      invariant fresh(node) && Readable(node.vRecvMsg) && (ok ==> node.Valid())
      invariant Feed(Inbox([], false), Joined(chunks[..i])) == Inbox(Contents(node.vRecvMsg), !ok)
    {
      ghost var s := Inbox(Contents(node.vRecvMsg), !ok);
      assert chunks[..i + 1][..i] == chunks[..i];
      FeedTwice(Inbox([], false), Joined(chunks[..i]), chunks[i]);
      if ok {
        var complete: bool;
        ok, complete := node.ReceiveMsgBytes(chunks[i]);
      } else {
        RejectedStays(s, chunks[i]);
      }
    }
    assert chunks[..|chunks|] == chunks;
    FeedKeepsBytes(Inbox([], false), Joined(chunks));
    assert [] + Joined(chunks) == Joined(chunks);
  }

  lemma NoContents()
    ensures Readable([]) && Contents([]) == []
  {
  }
}
