/**
 One talker thread on its own: the Recv loop that assembles a read from whatever the kernel returns,
 and the loop that reads length and body and calls back.
 */
module ChannelTalker {
  import opened Bytes
  import opened ChannelFraming
  import opened Sequences

  /** A connected socket: the bytes the peer sends, and how the kernel hands them out. */
  class Socket {
    const stream: seq<byte>
    /** ::recv's answer at each position: how many bytes it would give, or an error if not positive. */
    const kernel: nat -> int
    var pos: nat
    var connected: bool

    ghost predicate Valid()
      reads this
    {
      pos <= |stream|
    }

    /** Reading from here, the kernel fails only once the stream is used up. */
    ghost predicate Healthy()
    {
      forall i :: 0 <= i < |stream| ==> kernel(i) > 0
    }

    constructor (stream: seq<byte>, kernel: nat -> int)
      ensures this.stream == stream && this.kernel == kernel
      ensures Valid() && pos == 0 && connected
    {
      this.stream, this.kernel := stream, kernel;
      pos, connected := 0, true;
    }

    /** One ::recv of at most `left` bytes; 0 or less when the peer closed or the call failed. */
    method RecvOnce(left: nat) returns (received: int, bytes: seq<byte>)
      requires Valid() && left > 0
      modifies this`pos
      ensures Valid()
      ensures received > 0 ==> received == |bytes| <= left && pos == old(pos) + received
      ensures received > 0 ==> bytes == stream[old(pos)..pos]
      ensures received <= 0 ==> pos == old(pos) && (pos == |stream| || kernel(pos) <= 0)
    {
      if pos == |stream| || kernel(pos) <= 0 {
        return if pos == |stream| then 0 else kernel(pos), [];
      }
      received := kernel(pos);
      if received > left { received := left; }
      if received > |stream| - pos { received := |stream| - pos; }
      bytes := stream[pos..pos + received];
      pos := pos + received;
    }

    /**
     Reads `size` bytes into data, however the kernel cuts them.  The count is short only at the end of the
     stream or at a failed call; the bytes are the next ones of the stream; nothing else in data changes.
     */
    method Recv(data: array<byte>, size: nat) returns (count: nat)
      requires Valid() && size <= data.Length
      modifies this`pos, data
      ensures Valid()
      ensures count <= size && pos == old(pos) + count
      ensures data[..count] == stream[old(pos)..pos]
      ensures data[count..] == old(data[..])[count..]
      ensures count < size ==> pos == |stream| || kernel(pos) <= 0
    {
      var left: nat := size;
      var offset: nat := 0;
      while left > 0
        invariant left + offset == size <= data.Length
        invariant Valid() && pos == old(pos) + offset
        invariant forall i :: 0 <= i < offset ==> data[i] == stream[old(pos) + i]
        invariant forall i :: offset <= i < data.Length ==> data[i] == old(data[i])
      {
        var received, bytes := RecvOnce(left);
        if received <= 0 {
          break;
        }
        forall i | 0 <= i < received {
          data[offset + i] := bytes[i];
        }
        offset := offset + received;
        left := left - received;
      }
      count := size - left;
    }

    method Close()
      modifies this`connected
      ensures !connected
    {
      connected := false;
    }
  }

  /** The message at the front of a stream. */
  function Front(rest: seq<byte>): Message
    requires StartsWithPacket(rest)
  {
    rest[4..4 + Length(rest[..4])]
  }

  /** The messages handed on so far against the stream read so far. */
  ghost predicate Progress(stream: seq<byte>, pos: nat, connected: bool, healthy: bool, messages: seq<Message>) {
    && pos <= |stream|
    && messages <= Received(stream)
    && (connected ==> Received(stream) == messages + Received(stream[pos..]))
    && (!connected && healthy ==> messages == Received(stream))
  }

  lemma ProgressStarts(stream: seq<byte>, healthy: bool)
    ensures Progress(stream, 0, true, healthy, [])
  {
    assert stream[0..] == stream;
  }

  lemma ProgressStep(stream: seq<byte>, pos: nat, healthy: bool, messages: seq<Message>)
    requires Progress(stream, pos, true, healthy, messages)
    ensures var rest := stream[pos..];
            if StartsWithPacket(rest) then
              Progress(stream, pos + 4 + Length(rest[..4]), true, healthy, messages + [Front(rest)])
            else
              forall p :: 0 <= p <= |stream| ==> Progress(stream, p, false, healthy, messages)
    ensures forall p :: 0 <= p <= |stream| ==> Progress(stream, p, false, false, messages)
  {
    var rest := stream[pos..];
    ReceivedFront(rest);
    hide Received, Length, GoodLength;
    if StartsWithPacket(rest) {
      var n := Length(rest[..4]);
      assert rest[4 + n..] == stream[pos + 4 + n..];
      Assoc(messages, [Front(rest)], Received(rest[4 + n..]));
    } else {
      assert messages + [] == messages;
    }
  }

  lemma ReceivedFront(rest: seq<byte>)
    ensures StartsWithPacket(rest) ==> Received(rest) == [Front(rest)] + Received(rest[4 + Length(rest[..4])..])
    ensures !StartsWithPacket(rest) ==> Received(rest) == []
  {
    hide Length;
  }

  lemma ProgressEnds(stream: seq<byte>, pos: nat, healthy: bool, messages: seq<Message>)
    requires Progress(stream, pos, false, healthy, messages)
    ensures messages <= Received(stream)
    ensures healthy ==> messages == Received(stream)
  {
  }

  class CommandChannel {
    var buffer: array<byte>
    var delivered: seq<Message>

    constructor ()
      ensures buffer.Length == 1024 && fresh(buffer) && delivered == []
    {
      buffer := new byte[1024](_ => 0);
      delivered := [];
    }

    /** vector::resize to a larger size: keeps the old bytes, adds zeros. */
    method Resize(size: nat)
      requires size > buffer.Length
      modifies this`buffer
      ensures fresh(buffer) && buffer.Length == size
      ensures buffer[..old(buffer).Length] == old(buffer[..])
    {
      var before := buffer;
      var next := new byte[size](i requires 0 <= i reads before => if i < before.Length then before[i] else 0);
      buffer := next;
    }

    /**
     One turn of the thread's loop: reads a length and a body and calls back, or closes the connection.
     */
    method ReadMessage(socket: Socket)
      requires socket.Valid() && socket.connected
      modifies this, buffer, socket
      ensures socket.Valid() && (buffer == old(buffer) || fresh(buffer))
      ensures var rest := socket.stream[old(socket.pos)..];
              if socket.connected then
                && StartsWithPacket(rest)
                && socket.pos == old(socket.pos) + 4 + Length(rest[..4])
                && delivered == old(delivered) + [Front(rest)]
              else
                && delivered == old(delivered)
                && (socket.Healthy() ==> !StartsWithPacket(rest))
    {
      hide Received, Length;
      ghost var rest := socket.stream[socket.pos..];
      var lengthBytes := new byte[4](_ => 0);
      var received := socket.Recv(lengthBytes, 4);
      if received != 4 {
        socket.Close();
        return;
      }
      assert rest[..4] == lengthBytes[..4] == lengthBytes[..];
      var length := Length(lengthBytes[..]);
      if length <= 0 || length > SIZE_MAX {
        socket.Close();
        return;
      }
      if length > buffer.Length {
        Resize(length);
      }
      received := socket.Recv(buffer, length);
      if received != length {
        socket.Close();
        return;
      }
      assert rest[4..4 + length] == buffer[..length];
      delivered := delivered + [buffer[..length]];
    }

    /**
     The thread's loop on one connection.  For every stream and every way the kernel cuts it, the callbacks
     get a prefix of the stream's messages in order, and all of them if no call fails early.
     */
    method Talk(socket: Socket)
      requires socket.Valid() && socket.pos == 0 && socket.connected
      modifies this, buffer, socket
      ensures !socket.connected
      ensures old(delivered) <= delivered <= old(delivered) + Received(socket.stream)
      ensures socket.Healthy() ==> delivered == old(delivered) + Received(socket.stream)
    {
      hide Received, Progress;
      ghost var messages: seq<Message> := [];
      ProgressStarts(socket.stream, socket.Healthy());
      while socket.connected
        invariant socket.Valid() && (buffer == old(buffer) || fresh(buffer))
        invariant delivered == old(delivered) + messages
        invariant Progress(socket.stream, socket.pos, socket.connected, socket.Healthy(), messages)
        decreases socket.connected, |socket.stream| - socket.pos
      {
        ghost var start := socket.pos;
        ReadMessage(socket);
        ProgressStep(socket.stream, start, socket.Healthy(), messages);
        if socket.connected {
          messages := messages + [Front(socket.stream[start..])];
        }
      }
      ProgressEnds(socket.stream, socket.pos, socket.Healthy(), messages);
    }
  }
}
