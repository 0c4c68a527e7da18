/**
 The command channel's wire format: a message is its length as a 4-byte little-endian int, then its bytes.
 SendDataPacket writes it; each talker thread reads it and drops the connection on a length outside
 1..CMD_CHANNEL_MSG_SIZE_MAX or on a short read.
 */
module ChannelFraming {
  import opened Bytes

  const SIZE_MAX := 65536

  /** static_cast<int>(size): the low 32 bits. */
  function Low32(size: nat): nat {
    size % 0x1_0000_0000
  }

  function Header(n: nat): (h: seq<byte>)
    requires n < 0x1_0000_0000
    ensures |h| == 4
  {
    [n % 0x100, n / 0x100 % 0x100, n / 0x1_0000 % 0x100, n / 0x100_0000]
  }

  /** The four bytes read as a signed int. */
  function Length(h: seq<byte>): int
    requires |h| == 4
  {
    var n := h[0] as int + 0x100 * (h[1] as int) + 0x1_0000 * (h[2] as int) + 0x100_0000 * (h[3] as int);
    if n < 0x8000_0000 then n else n - 0x1_0000_0000
  }

  lemma HeaderLength(n: nat)
    requires n < 0x1_0000_0000
    ensures Length(Header(n)) == if n < 0x8000_0000 then n else n - 0x1_0000_0000
  {
    var a, b, c := n / 0x100, n / 0x1_0000, n / 0x100_0000;
    assert n == n % 0x100 + 0x100 * a;
    assert b == a / 0x100 && a == a % 0x100 + 0x100 * b;
    assert c == b / 0x100 && b == b % 0x100 + 0x100 * c;
    assert n == n % 0x100 + 0x100 * (a % 0x100) + 0x1_0000 * (b % 0x100) + 0x100_0000 * c;
  }

  type Message = seq<byte>

  /** What SendDataPacket puts on the wire. */
  function Packet(message: Message): seq<byte> {
    Header(Low32(|message|)) + message
  }

  predicate Sendable(message: Message) {
    1 <= |message| <= SIZE_MAX
  }

  function Packets(messages: seq<Message>): seq<byte> {
    if messages == [] then [] else Packet(messages[0]) + Packets(messages[1..])
  }

  predicate GoodLength(n: int) {
    0 < n <= SIZE_MAX
  }

  /** The stream starts with a whole, acceptable packet. */
  predicate StartsWithPacket(stream: seq<byte>) {
    && |stream| >= 4
    && GoodLength(Length(stream[..4]))
    && |stream| >= 4 + Length(stream[..4])
  }

  /** The messages a talker hands to the callback before it gives up on a connection carrying this stream. */
  function Received(stream: seq<byte>): seq<Message> {
    if !StartsWithPacket(stream) then []
    else
      var n := Length(stream[..4]);
      [stream[4..4 + n]] + Received(stream[4 + n..])
  }

  lemma PacketFront(message: Message, rest: seq<byte>)
    requires Sendable(message)
    ensures var stream, n := Packet(message) + rest, |message|;
            && |stream| >= 4 + n && stream[..4] == Header(n)
            && stream[4..4 + n] == message && stream[4 + n..] == rest
  {
    hide Header;
  }

  lemma PacketThenRest(message: Message, rest: seq<byte>)
    requires Sendable(message)
    ensures StartsWithPacket(Packet(message) + rest)
    ensures Received(Packet(message) + rest) == [message] + Received(rest)
  {
    hide Header, Length, Packet;
    HeaderLength(|message|);
    PacketFront(message, rest);
  }

  /** Framing round trip: acceptable messages come out as they went in, in order. */
  lemma {:induction false} ReceivedPackets(messages: seq<Message>, rest: seq<byte>)
    requires forall m :: m in messages ==> Sendable(m)
    ensures Received(Packets(messages) + rest) == messages + Received(rest)
  {
    hide Received, Packet;
    if messages == [] {
      assert Packets(messages) + rest == rest;
      assert messages + Received(rest) == Received(rest);
    } else {
      ReceivedPackets(messages[1..], rest);
      PacketThenRest(messages[0], Packets(messages[1..]) + rest);
      assert Packets(messages) + rest == Packet(messages[0]) + (Packets(messages[1..]) + rest);
      assert messages + Received(rest) == [messages[0]] + (messages[1..] + Received(rest));
    }
  }

  /**
   A packet is handed on as the message it carries exactly when the message has 1 to SIZE_MAX bytes.
   SendDataPacket does not check this: a longer message, or an empty one, ends the connection instead
   or is cut where its low 32 bits say.
   */
  lemma DeliveredIffSendable(message: Message)
    ensures Received(Packet(message)) == [message] <==> Sendable(message)
  {
    var stream := Packet(message);
    HeaderLength(Low32(|message|));
    assert stream[..4] == Header(Low32(|message|));
    if Sendable(message) {
      PacketThenRest(message, []);
      assert stream + [] == stream;
    } else if StartsWithPacket(stream) {
      assert |Received(stream)[0]| == Length(stream[..4]) <= SIZE_MAX;
    }
  }
}
