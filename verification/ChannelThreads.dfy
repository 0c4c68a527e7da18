/**
 The three talker threads together.  One step of a thread is one ::recv, one look at where the buffer is, or
 one callback, so a schedule can interleave them at every point where the kernel can cut a read.  The activity
 thread has a buffer of its own; the AIC command thread and the file-transfer thread read into the same
 acs_client_buf_.  A resize beyond a buffer's capacity moves it, and a pointer taken before is then stale.
 */
module ChannelThreads {
  import opened Bytes
  import opened ChannelFraming
  import opened Sequences

  /** A vector: its bytes, the room before it must move, and how often it has moved. */
  datatype Buffer = Buffer(bytes: seq<byte>, capacity: nat, place: nat)

  /** The capacity the library asks for when a vector of one size must hold another; at least the new size. */
  type Growth = (nat, nat) -> nat

  /**
   Where a thread is: reading a length; reading a body through the pointer it took to `place`; with the body
   read; in the callback, with the pointer it took for it; done; or past the use of a stale pointer.
   */
  datatype Reader =
    | ReadLength(got: nat)
    | ReadBody(length: nat, got: nat, place: nat)
    | Filled(length: nat)
    | Calling(length: nat, place: nat)
    | Closed
    | Broken

  datatype Channel = Channel(stream: seq<byte>, pos: nat, reader: Reader, delivered: seq<Message>)
  {
    /** The message being read fits the buffer: the thread has resized it, and no thread shrinks it. */
    predicate Fits(buffer: Buffer) {
      && pos <= |stream|
      && match reader
         case ReadLength(got) => got < 4 && got <= pos
         case ReadBody(n, got, _) => got < n <= |buffer.bytes|
         case Filled(n) => n <= |buffer.bytes|
         case Calling(n, _) => n <= |buffer.bytes|
         case _ => true
    }

    /** Bytes of a message are in the buffer: from the first one read to the end of the callback. */
    predicate Busy() {
      reader.Filled? || reader.Calling? || (reader.ReadBody? && reader.got > 0)
    }

    /** The thread holds a pointer into the buffer, taken before a read or before the callback. */
    predicate Points() {
      reader.ReadBody? || reader.Calling?
    }
  }

  function Min(a: int, b: int): int {
    if a < b then a else b
  }

  function Max(a: int, b: int): int {
    if a < b then b else a
  }

  /** resize, which the threads call only to grow: new bytes are zero, and it moves if there is no room. */
  function Resized(growth: Growth, buffer: Buffer, size: nat): (r: Buffer)
    ensures |r.bytes| >= |buffer.bytes| && |r.bytes| >= size && r.bytes[..|buffer.bytes|] == buffer.bytes
    ensures r.place == buffer.place <==> size <= Max(|buffer.bytes|, buffer.capacity)
  {
    if size <= |buffer.bytes| then buffer
    else
      var bytes := buffer.bytes + seq(size - |buffer.bytes|, _ => 0);
      if size <= buffer.capacity then buffer.(bytes := bytes)
      else Buffer(bytes, Max(size, growth(|buffer.bytes|, size)), buffer.place + 1)
  }

  function Written(buffer: seq<byte>, at: nat, bytes: seq<byte>): (r: seq<byte>)
    requires at + |bytes| <= |buffer|
    ensures |r| == |buffer|
  {
    buffer[..at] + bytes + buffer[at + |bytes|..]
  }

  /** A thread whose length is complete: it resizes the buffer and takes a pointer to it. */
  function Sized(growth: Growth, c: Channel, buffer: Buffer, n: nat): (r: (Channel, Buffer))
    requires n > 0 && c.pos <= |c.stream|
    ensures r.0.Fits(r.1)
  {
    var grown := Resized(growth, buffer, n);
    (c.(reader := ReadBody(n, 0, grown.place)), grown)
  }

  /** One step of a thread: `answer` is what ::recv would return with enough room, an error if not positive. */
  function Advance(growth: Growth, c: Channel, buffer: Buffer, answer: int): (r: (Channel, Buffer))
    requires c.Fits(buffer)
    ensures r.0.Fits(r.1) && |r.1.bytes| >= |buffer.bytes| && r.0.stream == c.stream
  {
    var k := Min(answer, |c.stream| - c.pos);
    match c.reader
    case ReadLength(got) =>
      if k <= 0 then (c.(reader := Closed), buffer)
      else
        var m := Min(k, 4 - got);
        if got + m < 4 then (c.(pos := c.pos + m, reader := ReadLength(got + m)), buffer)
        else
          var n := Length(c.stream[c.pos + m - 4..c.pos + m]);
          if !GoodLength(n) then (c.(pos := c.pos + m, reader := Closed), buffer)
          else Sized(growth, c.(pos := c.pos + m), buffer, n)
    case ReadBody(n, got, place) =>
      if k <= 0 then (c.(reader := Closed), buffer)
      else if place != buffer.place then (c.(reader := Broken), buffer)
      else
        var m := Min(k, n - got);
        var filled := buffer.(bytes := Written(buffer.bytes, got, c.stream[c.pos..c.pos + m]));
        (c.(pos := c.pos + m, reader := if got + m < n then ReadBody(n, got + m, place) else Filled(n)), filled)
    case Filled(n) => (c.(reader := Calling(n, buffer.place)), buffer)
    case Calling(n, place) =>
      if place != buffer.place then (c.(reader := Broken), buffer)
      else (c.(reader := ReadLength(0), delivered := c.delivered + [buffer.bytes[..n]]), buffer)
    case Closed => (c, buffer)
    case Broken => (c, buffer)
  }

  datatype System = System(ams: Channel, acs: Channel, ftc: Channel, amsBuffer: Buffer, acsBuffer: Buffer)
  {
    predicate Fits() {
      ams.Fits(amsBuffer) && acs.Fits(acsBuffer) && ftc.Fits(acsBuffer)
    }

    /** At most one of the two threads that share acs_client_buf_ has bytes of a message in it. */
    predicate Exclusive() {
      !(acs.Busy() && ftc.Busy())
    }
  }

  datatype Thread = Ams | Acs | Ftc

  datatype Action = Action(thread: Thread, answer: int)

  function Step(growth: Growth, s: System, a: Action): (r: System)
    requires s.Fits()
    ensures r.Fits()
  {
    match a.thread
    case Ams =>
      var (c, buffer) := Advance(growth, s.ams, s.amsBuffer, a.answer);
      s.(ams := c, amsBuffer := buffer)
    case Acs =>
      var (c, buffer) := Advance(growth, s.acs, s.acsBuffer, a.answer);
      s.(acs := c, acsBuffer := buffer)
    case Ftc =>
      var (c, buffer) := Advance(growth, s.ftc, s.acsBuffer, a.answer);
      s.(ftc := c, acsBuffer := buffer)
  }

  const BUFFER_SIZE := 1024

  function Open(stream: seq<byte>): Channel {
    Channel(stream, 0, ReadLength(0), [])
  }

  function NewBuffer(): Buffer {
    Buffer(seq(BUFFER_SIZE, _ => 0), BUFFER_SIZE, 0)
  }

  function Start(ams: seq<byte>, acs: seq<byte>, ftc: seq<byte>): (s: System)
    ensures s.Fits()
  {
    System(Open(ams), Open(acs), Open(ftc), NewBuffer(), NewBuffer())
  }

  function Run(growth: Growth, s: System, schedule: seq<Action>): (r: System)
    requires s.Fits()
    ensures r.Fits()
  {
    if schedule == [] then s
    else Step(growth, Run(growth, s, schedule[..|schedule| - 1]), schedule[|schedule| - 1])
  }

  /** The step does not move the shared buffer away from a pointer the other thread holds. */
  predicate KeepsPointers(growth: Growth, s: System, a: Action)
    requires s.Fits()
  {
    Step(growth, s, a).acsBuffer.place != s.acsBuffer.place ==>
      if a.thread == Acs then !s.ftc.Points() else !s.acs.Points()
  }

  /** Exclusive use of the shared buffer in every state the schedule passes, and no pointer left behind. */
  ghost predicate ExclusiveRun(growth: Growth, s: System, schedule: seq<Action>)
    requires s.Fits()
  {
    && (forall i :: 0 <= i <= |schedule| ==> Run(growth, s, schedule[..i]).Exclusive())
    && (forall i :: 0 <= i < |schedule| ==> KeepsPointers(growth, Run(growth, s, schedule[..i]), schedule[i]))
  }

  // ----- one channel -----

  /** The part of the stream from the packet being read on. */
  function Rest(c: Channel): seq<byte>
    requires c.pos <= |c.stream|
  {
    var back := match c.reader
      case ReadLength(got) => got
      case ReadBody(_, got, _) => 4 + got
      case Filled(n) => 4 + n
      case Calling(n, _) => 4 + n
      case _ => 0;
    if back <= c.pos then c.stream[c.pos - back..] else []
  }

  /** The buffer holds the first `got` bytes of the body at the front of `rest`. */
  ghost predicate Holds(buffer: seq<byte>, rest: seq<byte>, n: nat, got: nat) {
    && 4 + got <= |rest| && got <= n <= |buffer|
    && GoodLength(n) && Length(rest[..4]) == n
    && buffer[..got] == rest[4..4 + got]
  }

  ghost predicate Sound(c: Channel, buffer: Buffer) {
    && c.Fits(buffer) && !c.reader.Broken?
    && if c.reader.Closed? then c.delivered <= Received(c.stream)
       else
         && Received(c.stream) == c.delivered + Received(Rest(c))
         && match c.reader
            case ReadBody(n, got, place) =>
              4 + got <= c.pos && place == buffer.place && Holds(buffer.bytes, Rest(c), n, got)
            case Filled(n) => 4 + n <= c.pos && Holds(buffer.bytes, Rest(c), n, n)
            case Calling(n, place) => 4 + n <= c.pos && place == buffer.place && Holds(buffer.bytes, Rest(c), n, n)
            case _ => true
  }

  lemma SoundLengthStep(growth: Growth, c: Channel, buffer: Buffer, answer: int)
    requires Sound(c, buffer) && c.reader.ReadLength?
    ensures Sound(Advance(growth, c, buffer, answer).0, Advance(growth, c, buffer, answer).1)
  {
    hide Received, Resized;
    var (c', buffer') := Advance(growth, c, buffer, answer);
    if !c'.reader.Closed? {
      assert Rest(c') == Rest(c);
      if c'.reader.ReadBody? {
        assert Rest(c)[..4] == c.stream[c'.pos - 4..c'.pos];
      }
    }
  }

  lemma HoldsMore(buffer: seq<byte>, rest: seq<byte>, n: nat, got: nat, bytes: seq<byte>)
    requires Holds(buffer, rest, n, got) && got + |bytes| <= n && 4 + got + |bytes| <= |rest|
    requires bytes == rest[4 + got..4 + got + |bytes|]
    ensures Holds(Written(buffer, got, bytes), rest, n, got + |bytes|)
  {
    assert Written(buffer, got, bytes)[..got + |bytes|] == buffer[..got] + bytes;
  }

  lemma SoundBodyStep(growth: Growth, c: Channel, buffer: Buffer, answer: int)
    requires Sound(c, buffer) && c.reader.ReadBody?
    ensures Sound(Advance(growth, c, buffer, answer).0, Advance(growth, c, buffer, answer).1)
  {
    hide Received, Written, Holds;
    var (c', buffer') := Advance(growth, c, buffer, answer);
    if !c'.reader.Closed? {
      var bytes := c.stream[c.pos..c'.pos];
      assert bytes == Rest(c)[4 + c.reader.got..4 + c.reader.got + |bytes|];
      HoldsMore(buffer.bytes, Rest(c), c.reader.length, c.reader.got, bytes);
    }
  }

  lemma HeldMessage(buffer: seq<byte>, rest: seq<byte>, n: nat)
    requires Holds(buffer, rest, n, n)
    ensures Received(rest) == [buffer[..n]] + Received(rest[4 + n..])
  {
  }

  lemma SoundCallStep(growth: Growth, c: Channel, buffer: Buffer, answer: int)
    requires Sound(c, buffer) && c.reader.Calling?
    ensures Sound(Advance(growth, c, buffer, answer).0, Advance(growth, c, buffer, answer).1)
  {
    hide Received;
    var (c', buffer') := Advance(growth, c, buffer, answer);
    var n := c.reader.length;
    HeldMessage(buffer.bytes, Rest(c), n);
    assert Rest(c') == Rest(c)[4 + n..];
    Assoc(c.delivered, [buffer.bytes[..n]], Received(Rest(c')));
  }

  lemma SoundStep(growth: Growth, c: Channel, buffer: Buffer, answer: int)
    requires Sound(c, buffer)
    ensures Sound(Advance(growth, c, buffer, answer).0, Advance(growth, c, buffer, answer).1)
  {
    match c.reader
    case ReadLength(_) => SoundLengthStep(growth, c, buffer, answer);
    case ReadBody(_, _, _) => SoundBodyStep(growth, c, buffer, answer);
    case Filled(_) => hide Received, Holds;
    case Calling(_, _) => SoundCallStep(growth, c, buffer, answer);
    case Closed =>
  }

  /**
   Another thread's step does no harm if it left the buffer's contents alone or this thread has none in it, and
   did not move it while this thread points into it.
   */
  lemma SoundInOtherBuffer(c: Channel, buffer: Buffer, buffer': Buffer)
    requires Sound(c, buffer) && |buffer'.bytes| >= |buffer.bytes|
    requires c.Busy() ==> buffer'.bytes[..|buffer.bytes|] == buffer.bytes
    requires c.Points() ==> buffer'.place == buffer.place
    ensures Sound(c, buffer')
  {
    hide Received;
    if c.Busy() {
      var got := if c.reader.ReadBody? then c.reader.got else c.reader.length;
      assert buffer'.bytes[..got] == buffer'.bytes[..|buffer.bytes|][..got];
    }
  }

  /** A thread that is not busy after its step has not changed the contents of the buffer. */
  lemma QuietStep(growth: Growth, c: Channel, buffer: Buffer, answer: int)
    requires c.Fits(buffer) && !Advance(growth, c, buffer, answer).0.Busy()
    ensures Advance(growth, c, buffer, answer).1.bytes[..|buffer.bytes|] == buffer.bytes
  {
    hide Resized;
  }

  // ----- every interleaving -----

  lemma {:induction false} ActivitySound(growth: Growth, s: System, schedule: seq<Action>)
    requires s.Fits() && Sound(s.ams, s.amsBuffer)
    ensures Sound(Run(growth, s, schedule).ams, Run(growth, s, schedule).amsBuffer)
    decreases |schedule|
  {
    hide Sound;
    if schedule != [] {
      var before, a := Run(growth, s, schedule[..|schedule| - 1]), schedule[|schedule| - 1];
      ActivitySound(growth, s, schedule[..|schedule| - 1]);
      SoundStep(growth, before.ams, before.amsBuffer, a.answer);
    }
  }

  lemma SharedStep(growth: Growth, s: System, a: Action)
    requires s.Fits() && Sound(s.acs, s.acsBuffer) && Sound(s.ftc, s.acsBuffer)
    requires s.Exclusive() && Step(growth, s, a).Exclusive() && KeepsPointers(growth, s, a)
    ensures var t := Step(growth, s, a); Sound(t.acs, t.acsBuffer) && Sound(t.ftc, t.acsBuffer)
  {
    hide Sound, Advance;
    var t := Step(growth, s, a);
    match a.thread
    case Ams =>
    case Acs =>
      SoundStep(growth, s.acs, s.acsBuffer, a.answer);
      if s.ftc.Busy() { QuietStep(growth, s.acs, s.acsBuffer, a.answer); }
      SoundInOtherBuffer(s.ftc, s.acsBuffer, t.acsBuffer);
    case Ftc =>
      SoundStep(growth, s.ftc, s.acsBuffer, a.answer);
      if s.acs.Busy() { QuietStep(growth, s.ftc, s.acsBuffer, a.answer); }
      SoundInOtherBuffer(s.acs, s.acsBuffer, t.acsBuffer);
  }

  lemma ExclusiveFront(growth: Growth, s: System, schedule: seq<Action>)
    requires s.Fits() && schedule != [] && ExclusiveRun(growth, s, schedule)
    ensures var front := schedule[..|schedule| - 1];
            && ExclusiveRun(growth, s, front)
            && Run(growth, s, front).Exclusive() && Run(growth, s, schedule).Exclusive()
            && KeepsPointers(growth, Run(growth, s, front), schedule[|schedule| - 1])
  {
    hide Run, KeepsPointers;
    var front := schedule[..|schedule| - 1];
    assert schedule[..|schedule|] == schedule;
    assert forall i :: 0 <= i <= |front| ==> front[..i] == schedule[..i];
  }

  lemma {:induction false} SharedSound(growth: Growth, s: System, schedule: seq<Action>)
    requires s.Fits() && Sound(s.acs, s.acsBuffer) && Sound(s.ftc, s.acsBuffer)
    requires ExclusiveRun(growth, s, schedule)
    ensures var t := Run(growth, s, schedule); Sound(t.acs, t.acsBuffer) && Sound(t.ftc, t.acsBuffer)
    decreases |schedule|
  {
    hide Sound;
    if schedule != [] {
      var front := schedule[..|schedule| - 1];
      ExclusiveFront(growth, s, schedule);
      hide ExclusiveRun;
      SharedSound(growth, s, front);
      SharedStep(growth, Run(growth, s, front), schedule[|schedule| - 1]);
    }
  }

  lemma OpenSound(stream: seq<byte>, buffer: Buffer)
    ensures Sound(Open(stream), buffer)
  {
    assert stream[0..] == stream;
  }

  /** A prefix of the messages has been delivered, and all of them once the stream is read between messages. */
  ghost predicate DeliversInOrder(c: Channel, messages: seq<Message>) {
    && c.delivered <= messages && !c.reader.Broken?
    && (c.pos == |c.stream| && c.reader == ReadLength(0) ==> c.delivered == messages)
  }

  lemma ReceivedNothing()
    ensures Received([]) == []
  {
  }

  lemma SoundDelivers(c: Channel, buffer: Buffer, messages: seq<Message>)
    requires Sound(c, buffer) && c.stream == Packets(messages)
    requires forall m :: m in messages ==> Sendable(m)
    ensures DeliversInOrder(c, messages)
  {
    hide Received, Packets, Holds;
    ReceivedPackets(messages, []);
    ReceivedNothing();
    assert Packets(messages) + [] == Packets(messages);
    assert messages + [] == messages;
    if c.pos == |c.stream| && c.reader == ReadLength(0) {
      assert Rest(c) == [];
    }
  }

  lemma {:induction false} StreamsFixed(growth: Growth, s: System, schedule: seq<Action>)
    requires s.Fits()
    ensures var t := Run(growth, s, schedule);
            t.ams.stream == s.ams.stream && t.acs.stream == s.acs.stream && t.ftc.stream == s.ftc.stream
    decreases |schedule|
  {
    hide Advance;
    if schedule != [] {
      StreamsFixed(growth, s, schedule[..|schedule| - 1]);
    }
  }

  /**
   Framed delivery in every interleaving of the three threads, for every way the kernel cuts the streams and
   every way the library grows a vector: the activity callbacks get exactly the messages in order; the two
   channels that share a buffer do so whenever the schedule keeps their use of it exclusive and never moves it
   under a pointer.
   */
  lemma FramedDelivery(growth: Growth, ams: seq<Message>, acs: seq<Message>, ftc: seq<Message>, schedule: seq<Action>)
    requires forall m :: m in ams || m in acs || m in ftc ==> Sendable(m)
    ensures var s := Start(Packets(ams), Packets(acs), Packets(ftc));
            var t := Run(growth, s, schedule);
            && DeliversInOrder(t.ams, ams)
            && (ExclusiveRun(growth, s, schedule) ==> DeliversInOrder(t.acs, acs) && DeliversInOrder(t.ftc, ftc))
  {
    hide Sound, Run, ExclusiveRun;
    var s := Start(Packets(ams), Packets(acs), Packets(ftc));
    OpenSound(s.ams.stream, s.amsBuffer);
    OpenSound(s.acs.stream, s.acsBuffer);
    OpenSound(s.ftc.stream, s.acsBuffer);
    StreamsFixed(growth, s, schedule);
    var t := Run(growth, s, schedule);
    ActivitySound(growth, s, schedule);
    SoundDelivers(t.ams, t.amsBuffer, ams);
    if ExclusiveRun(growth, s, schedule) {
      SharedSound(growth, s, schedule);
      SoundDelivers(t.acs, t.acsBuffer, acs);
      SoundDelivers(t.ftc, t.acsBuffer, ftc);
    }
  }

  // ----- one message on each of the two channels -----

  /** The front of `under` replaced by as much of `over` as fits. */
  function Overlay(over: seq<byte>, under: seq<byte>): (r: seq<byte>)
    ensures |r| == |under|
  {
    if |over| >= |under| then over[..|under|] else over + under[|over|..]
  }

  lemma PacketParts(message: Message)
    requires Sendable(message)
    ensures var p := Packet(message);
            |p| == 4 + |message| && Length(p[0..4]) == |message| && p[4..] == message
  {
    HeaderLength(|message|);
    assert Packet(message)[0..4] == Header(|message|);
  }

  /** A thread on a connection that carries the one message m; the buffer holds what it has read of m. */
  ghost predicate Reads(c: Channel, buffer: Buffer, m: Message) {
    && c.Fits(buffer) && Sendable(m) && c.stream == Packet(m)
    && match c.reader
       case ReadLength(got) =>
         (c.pos == got && c.delivered == []) || (c.pos == |c.stream| && got == 0 && c.delivered == [m])
       case ReadBody(n, got, place) =>
         && n == |m| && c.pos == 4 + got && place == buffer.place && buffer.bytes[..got] == m[..got]
         && c.delivered == []
       case Filled(n) => n == |m| && c.pos == |c.stream| && buffer.bytes[..n] == m && c.delivered == []
       case Calling(n, place) =>
         && n == |m| && c.pos == |c.stream| && place == buffer.place && buffer.bytes[..n] == m && c.delivered == []
       case Closed => c.delivered == [] || c.delivered == [m]
       case Broken => false
  }

  lemma ReadsLengthStep(growth: Growth, c: Channel, buffer: Buffer, m: Message, answer: int)
    requires Reads(c, buffer, m) && c.reader.ReadLength?
    ensures Reads(Advance(growth, c, buffer, answer).0, Advance(growth, c, buffer, answer).1, m)
  {
    hide Packet, Header, Length, Resized;
    PacketParts(m);
    var c' := Advance(growth, c, buffer, answer).0;
    if c'.pos == 4 {
      assert c.stream[c'.pos - 4..c'.pos] == c.stream[0..4];
    }
  }

  lemma ReadsBodyStep(growth: Growth, c: Channel, buffer: Buffer, m: Message, answer: int)
    requires Reads(c, buffer, m) && c.reader.ReadBody?
    ensures Reads(Advance(growth, c, buffer, answer).0, Advance(growth, c, buffer, answer).1, m)
  {
    hide Packet, Header, Length, Resized;
    PacketParts(m);
    var (c', buffer') := Advance(growth, c, buffer, answer);
    var got, k := c.reader.got, c'.pos - c.pos;
    hide GoodLength, Sized;
    if c'.reader.Closed? {
    } else {
      SliceOfSlice(c.stream, 4, |m|, got, k);
      assert c.stream[4..4 + |m|] == m && c.stream[c.pos..c'.pos] == m[got..got + k];
      WrittenFront(buffer.bytes, got, m[got..got + k]);
      assert m[..got] + m[got..got + k] == m[..got + k];
      hide Written;
      assert buffer'.bytes[..got + k] == m[..got + k];
    }
  }

  lemma WrittenFront(buffer: seq<byte>, at: nat, bytes: seq<byte>)
    requires at + |bytes| <= |buffer|
    ensures Written(buffer, at, bytes)[..at + |bytes|] == buffer[..at] + bytes
  {
  }

  lemma ReadsStep(growth: Growth, c: Channel, buffer: Buffer, m: Message, answer: int)
    requires Reads(c, buffer, m)
    ensures Reads(Advance(growth, c, buffer, answer).0, Advance(growth, c, buffer, answer).1, m)
  {
    if c.reader.ReadLength? {
      ReadsLengthStep(growth, c, buffer, m, answer);
    } else if c.reader.ReadBody? {
      ReadsBodyStep(growth, c, buffer, m, answer);
    } else {
      hide Packet, Resized, Written, Length;
      PacketParts(m);
    }
  }

  /** A step of the other thread changes nothing here if the messages agree where they overlap and nothing moves. */
  lemma ReadsUndisturbed(growth: Growth, c: Channel, d: Channel, buffer: Buffer, m: Message, other: Message,
      answer: int)
    requires Reads(c, buffer, m) && Reads(d, buffer, other)
    requires forall i :: 0 <= i < |m| && i < |other| ==> m[i] == other[i]
    requires c.Points() ==> Advance(growth, d, buffer, answer).1.place == buffer.place
    ensures Reads(c, Advance(growth, d, buffer, answer).1, m)
  {
    hide Packet;
    ReadsStep(growth, d, buffer, other, answer);
    var buffer' := Advance(growth, d, buffer, answer).1;
    if c.reader.ReadBody? || c.reader.Filled? || c.reader.Calling? {
      var got := if c.reader.ReadBody? then c.reader.got else c.reader.length;
      forall i | 0 <= i < got ensures buffer'.bytes[i] == m[i] {
        assert buffer.bytes[i] == buffer.bytes[..got][i] == m[i];
        AdvanceWritesMessage(growth, d, buffer, other, answer, i);
      }
      assert buffer'.bytes[..got] == m[..got];
    }
  }

  lemma AdvanceWritesMessage(growth: Growth, d: Channel, buffer: Buffer, other: Message, answer: int, i: nat)
    requires Reads(d, buffer, other) && i < |buffer.bytes|
    ensures var bytes := Advance(growth, d, buffer, answer).1.bytes;
            bytes[i] == buffer.bytes[i] || (i < |other| && bytes[i] == other[i])
  {
    hide Packet, Header, Length, Resized;
    PacketParts(other);
    var (d', buffer') := Advance(growth, d, buffer, answer);
    if d.reader.ReadLength? {
      assert buffer'.bytes[..|buffer.bytes|] == buffer.bytes;
      assert buffer'.bytes[i] == buffer'.bytes[..|buffer.bytes|][i];
    } else if d.reader.ReadBody? && d.reader.got <= i < d.reader.got + (d'.pos - d.pos) {
      assert d.stream[4..] == other;
      assert d.stream[d.pos..d'.pos][i - d.reader.got] == other[i];
    }
  }

  /** Two messages that agree on their common front. */
  predicate Agree(a: Message, b: Message) {
    forall i :: 0 <= i < |a| && i < |b| ==> a[i] == b[i]
  }

  /** The capacity of a new buffer once it has been resized for a message. */
  function Room(growth: Growth, n: nat): nat {
    if n <= BUFFER_SIZE then BUFFER_SIZE else Max(n, growth(BUFFER_SIZE, n))
  }

  /** Whichever message comes first makes room for the other. */
  predicate Roomy(growth: Growth, m: nat, n: nat) {
    n <= Room(growth, m) && m <= Room(growth, n)
  }

  /** The thread has resized the buffer for its message. */
  predicate HasSized(c: Channel) {
    c.pos >= 4
  }

  /** Once either thread has resized the buffer it has room for both messages; until then it is new. */
  predicate Settled(s: System, a: Message, b: Message) {
    if HasSized(s.acs) || HasSized(s.ftc) then |a| <= s.acsBuffer.capacity && |b| <= s.acsBuffer.capacity
    else |s.acsBuffer.bytes| == BUFFER_SIZE == s.acsBuffer.capacity
  }

  lemma ResizedWithRoom(growth: Growth, buffer: Buffer, n: nat)
    ensures n <= buffer.capacity ==>
              var r := Resized(growth, buffer, n); r.place == buffer.place && r.capacity == buffer.capacity
    ensures |buffer.bytes| == BUFFER_SIZE == buffer.capacity ==>
              Resized(growth, buffer, n).capacity == Room(growth, n) >= n
  {
  }

  /** A step resizes the buffer for the message or leaves its place and room alone. */
  lemma StepResizes(growth: Growth, c: Channel, buffer: Buffer, m: Message, answer: int)
    requires Reads(c, buffer, m)
    ensures var (c', buffer') := Advance(growth, c, buffer, answer);
            if !HasSized(c) && HasSized(c') then buffer' == Resized(growth, buffer, |m|)
            else
              && buffer'.place == buffer.place && buffer'.capacity == buffer.capacity
              && (HasSized(c) || buffer' == buffer)
  {
    hide Packet, Header, Length, Resized, Written;
    PacketParts(m);
    var (c', buffer') := Advance(growth, c, buffer, answer);
    if c.reader.ReadLength? && c'.pos == 4 {
      assert c.stream[c'.pos - 4..c'.pos] == c.stream[0..4];
    }
  }

  /** A thread's step moves the buffer only when it resizes a new one. */
  lemma SettledStep(growth: Growth, c: Channel, buffer: Buffer, m: Message, other: nat, answer: int)
    requires Reads(c, buffer, m) && Roomy(growth, |m|, other)
    ensures var (c', buffer') := Advance(growth, c, buffer, answer);
            && (|m| <= buffer.capacity && other <= buffer.capacity ==>
                  buffer'.place == buffer.place && buffer'.capacity == buffer.capacity)
            && (|buffer.bytes| == BUFFER_SIZE == buffer.capacity && !HasSized(c) ==>
                  if HasSized(c') then |m| <= buffer'.capacity && other <= buffer'.capacity else buffer' == buffer)
  {
    StepResizes(growth, c, buffer, m, answer);
    ResizedWithRoom(growth, buffer, |m|);
    hide Advance, Reads, Resized, Room;
  }

  /** Neither thread has used a stale pointer, and a callback that was made got its message. */
  ghost predicate Harmless(s: System, a: Message, b: Message) {
    && s.acs.delivered in {[], [a]} && !s.acs.reader.Broken?
    && s.ftc.delivered in {[], [b]} && !s.ftc.reader.Broken?
  }

  /** Before a thread has sized the buffer it does not point into it. */
  lemma UnsizedPointsNowhere(c: Channel, buffer: Buffer, m: Message)
    requires Reads(c, buffer, m) && !HasSized(c)
    ensures !c.Points()
  {
  }

  lemma {:induction false} AgreeingPairSafe(growth: Growth, a: Message, b: Message, schedule: seq<Action>)
    requires Sendable(a) && Sendable(b) && Agree(a, b) && Roomy(growth, |a|, |b|)
    ensures var t := Run(growth, Start([], Packet(a), Packet(b)), schedule);
            Reads(t.acs, t.acsBuffer, a) && Reads(t.ftc, t.acsBuffer, b) && Settled(t, a, b)
    decreases |schedule|
  {
    hide Advance, Packet, Reads, Room;
    var s := Start([], Packet(a), Packet(b));
    if schedule == [] {
      OpenReads(a, s.acsBuffer);
      OpenReads(b, s.acsBuffer);
    } else {
      AgreeingPairSafe(growth, a, b, schedule[..|schedule| - 1]);
      PairStep(growth, Run(growth, s, schedule[..|schedule| - 1]), a, b, schedule[|schedule| - 1]);
    }
  }

  lemma PairStep(growth: Growth, t: System, a: Message, b: Message, x: Action)
    requires Agree(a, b) && Roomy(growth, |a|, |b|)
    requires t.Fits() && Reads(t.acs, t.acsBuffer, a) && Reads(t.ftc, t.acsBuffer, b) && Settled(t, a, b)
    ensures var t' := Step(growth, t, x);
            Reads(t'.acs, t'.acsBuffer, a) && Reads(t'.ftc, t'.acsBuffer, b) && Settled(t', a, b)
  {
    hide Advance, Packet, Reads, Room;
    match x.thread {
      case Ams =>
      case Acs =>
        ReadsStep(growth, t.acs, t.acsBuffer, a, x.answer);
        SettledStep(growth, t.acs, t.acsBuffer, a, |b|, x.answer);
        if !HasSized(t.ftc) { UnsizedPointsNowhere(t.ftc, t.acsBuffer, b); }
        PositionGrows(growth, t.acs, t.acsBuffer, x.answer);
        ReadsUndisturbed(growth, t.ftc, t.acs, t.acsBuffer, b, a, x.answer);
      case Ftc =>
        ReadsStep(growth, t.ftc, t.acsBuffer, b, x.answer);
        SettledStep(growth, t.ftc, t.acsBuffer, b, |a|, x.answer);
        if !HasSized(t.acs) { UnsizedPointsNowhere(t.acs, t.acsBuffer, a); }
        PositionGrows(growth, t.ftc, t.acsBuffer, x.answer);
        ReadsUndisturbed(growth, t.acs, t.ftc, t.acsBuffer, a, b, x.answer);
    }
  }

  lemma PositionGrows(growth: Growth, c: Channel, buffer: Buffer, answer: int)
    requires c.Fits(buffer)
    ensures Advance(growth, c, buffer, answer).0.pos >= c.pos
  {
  }

  lemma OpenReads(m: Message, buffer: Buffer)
    requires Sendable(m)
    ensures Reads(Open(Packet(m)), buffer, m)
  {
  }

  lemma {:induction false} RunAppend(growth: Growth, s: System, first: seq<Action>, second: seq<Action>)
    requires s.Fits()
    ensures Run(growth, s, first + second) == Run(growth, Run(growth, s, first), second)
    decreases |second|
  {
    hide Step;
    if second == [] {
      assert first + second == first;
    } else {
      RunAppend(growth, s, first, second[..|second| - 1]);
      assert (first + second)[..|first + second| - 1] == first + second[..|second| - 1];
    }
  }

  lemma RunOne(growth: Growth, s: System, a: Action)
    requires s.Fits()
    ensures Run(growth, s, [a]) == Step(growth, s, a)
  {
    hide Step;
    assert [a][..0] == [];
  }

  lemma RunTwo(growth: Growth, s: System, a: Action, b: Action)
    requires s.Fits()
    ensures Run(growth, s, [a, b]) == Step(growth, Step(growth, s, a), b)
  {
    hide Step, Run;
    RunOne(growth, s, a);
    RunOne(growth, Step(growth, s, a), b);
    RunAppend(growth, s, [a], [b]);
    assert [a] + [b] == [a, b];
  }

  // ----- what goes wrong otherwise: contents -----

  /** Both threads read their whole message; then the command thread looks where the buffer is and calls back. */
  function Clash(m: nat, n: nat): seq<Action> {
    [Action(Acs, 4), Action(Acs, m)] + [Action(Ftc, 4), Action(Ftc, n)] + [Action(Acs, 1), Action(Acs, 1)]
  }

  lemma LengthRead(growth: Growth, c: Channel, buffer: Buffer, m: Message)
    requires Sendable(m) && c == Open(Packet(m)) && c.Fits(buffer)
    ensures Advance(growth, c, buffer, 4) == Sized(growth, c.(pos := 4), buffer, |m|)
  {
    hide Packet, Header, Length, Resized;
    PacketParts(m);
  }

  lemma ReadsWhole(growth: Growth, c: Channel, buffer: Buffer, m: Message)
    requires Sendable(m) && c == Open(Packet(m)) && c.Fits(buffer)
    ensures var (c1, buffer1) := Advance(growth, c, buffer, 4);
            var (c2, buffer2) := Advance(growth, c1, buffer1, |m|);
            && c2 == Channel(c.stream, 4 + |m|, Filled(|m|), []) && |buffer2.bytes| >= |buffer.bytes|
            && buffer2.bytes[..|m|] == m
            && (forall i :: |m| <= i < |buffer.bytes| ==> buffer2.bytes[i] == buffer.bytes[i])
  {
    hide Packet, Resized;
    LengthRead(growth, c, buffer, m);
    PacketParts(m);
    var (c1, buffer1) := Advance(growth, c, buffer, 4);
    assert c1.stream[4..4 + |m|] == m;
    forall i | 0 <= i < |buffer.bytes| ensures buffer1.bytes[i] == buffer.bytes[i] {
      assert buffer1.bytes[..|buffer.bytes|][i] == buffer.bytes[i];
    }
  }

  lemma AcsReadsWhole(growth: Growth, s: System, m: Message)
    requires s.Fits() && Sendable(m) && s.acs == Open(Packet(m))
    ensures var t := Run(growth, s, [Action(Acs, 4), Action(Acs, |m|)]);
            && t.acs.reader == Filled(|m|) && t.acs.delivered == [] && t.ftc == s.ftc
            && t.acsBuffer.bytes[..|m|] == m
  {
    hide Advance, Packet;
    ReadsWhole(growth, s.acs, s.acsBuffer, m);
    RunTwo(growth, s, Action(Acs, 4), Action(Acs, |m|));
  }

  lemma FtcReadsWhole(growth: Growth, s: System, m: Message)
    requires s.Fits() && Sendable(m) && s.ftc == Open(Packet(m))
    ensures var t := Run(growth, s, [Action(Ftc, 4), Action(Ftc, |m|)]);
            && t.acs == s.acs && |t.acsBuffer.bytes| >= |s.acsBuffer.bytes|
            && |m| <= |t.acsBuffer.bytes| && t.acsBuffer.bytes[..|m|] == m
            && (forall i :: |m| <= i < |s.acsBuffer.bytes| ==> t.acsBuffer.bytes[i] == s.acsBuffer.bytes[i])
  {
    hide Advance, Packet;
    ReadsWhole(growth, s.ftc, s.acsBuffer, m);
    RunTwo(growth, s, Action(Ftc, 4), Action(Ftc, |m|));
  }

  lemma AcsCallsBack(growth: Growth, s: System, n: nat)
    requires s.Fits() && s.acs.reader == Filled(n) && s.acs.delivered == []
    ensures Run(growth, s, [Action(Acs, 1), Action(Acs, 1)]).acs.delivered == [s.acsBuffer.bytes[..n]]
  {
    RunTwo(growth, s, Action(Acs, 1), Action(Acs, 1));
    hide Run;
  }

  /** In this schedule the command callback gets the file message laid over its own, whatever moves. */
  lemma ClashDelivers(growth: Growth, a: Message, b: Message)
    requires Sendable(a) && Sendable(b)
    ensures Run(growth, Start([], Packet(a), Packet(b)), Clash(|a|, |b|)).acs.delivered == [Overlay(b, a)]
  {
    hide Run, Packet;
    var s := Start([], Packet(a), Packet(b));
    var one, two := [Action(Acs, 4), Action(Acs, |a|)], [Action(Ftc, 4), Action(Ftc, |b|)];
    RunAppend(growth, s, one, two);
    RunAppend(growth, s, one + two, [Action(Acs, 1), Action(Acs, 1)]);
    var s1 := Run(growth, s, one);
    AcsReadsWhole(growth, s, a);
    var s2 := Run(growth, s1, two);
    FtcReadsWhole(growth, s1, b);
    AcsCallsBack(growth, s2, |a|);
    forall i | 0 <= i < |a| ensures s2.acsBuffer.bytes[i] == Overlay(b, a)[i] {
      assert s1.acsBuffer.bytes[i] == s1.acsBuffer.bytes[..|a|][i] == a[i];
      if i < |b| { assert s2.acsBuffer.bytes[i] == s2.acsBuffer.bytes[..|b|][i] == b[i]; }
    }
    assert s2.acsBuffer.bytes[..|a|] == Overlay(b, a);
  }

  // ----- what goes wrong otherwise: place -----

  /** Both threads read their length; then the first reads its body through the pointer it took. */
  function Moved(first: Thread, second: Thread, m: nat): seq<Action> {
    [Action(first, 4), Action(second, 4)] + [Action(first, m)]
  }

  /** The second resize finds no room and moves the buffer under the first thread's pointer. */
  lemma SecondResizeMoves(growth: Growth, c: Channel, d: Channel, m: Message, n: Message)
    requires Sendable(m) && Sendable(n) && c == Open(Packet(m)) && d == Open(Packet(n)) && |n| > Room(growth, |m|)
    ensures var (c1, buffer1) := Advance(growth, c, NewBuffer(), 4);
            var (_, buffer2) := Advance(growth, d, buffer1, 4);
            c1.Fits(buffer2) && Advance(growth, c1, buffer2, |m|).0.reader == Broken
  {
    hide Packet;
    PacketParts(m);
    LengthRead(growth, c, NewBuffer(), m);
    var (c1, buffer1) := Advance(growth, c, NewBuffer(), 4);
    LengthRead(growth, d, buffer1, n);
  }

  lemma MoveBreaksAcs(growth: Growth, a: Message, b: Message)
    requires Sendable(a) && Sendable(b) && |b| > Room(growth, |a|)
    ensures Run(growth, Start([], Packet(a), Packet(b)), Moved(Acs, Ftc, |a|)).acs.reader == Broken
  {
    hide Packet, Advance, Run;
    var s := Start([], Packet(a), Packet(b));
    SecondResizeMoves(growth, s.acs, s.ftc, a, b);
    RunTwo(growth, s, Action(Acs, 4), Action(Ftc, 4));
    RunAppend(growth, s, [Action(Acs, 4), Action(Ftc, 4)], [Action(Acs, |a|)]);
    RunOne(growth, Run(growth, s, [Action(Acs, 4), Action(Ftc, 4)]), Action(Acs, |a|));
  }

  lemma MoveBreaksFtc(growth: Growth, a: Message, b: Message)
    requires Sendable(a) && Sendable(b) && |a| > Room(growth, |b|)
    ensures Run(growth, Start([], Packet(a), Packet(b)), Moved(Ftc, Acs, |b|)).ftc.reader == Broken
  {
    hide Packet, Advance, Run;
    var s := Start([], Packet(a), Packet(b));
    SecondResizeMoves(growth, s.ftc, s.acs, b, a);
    RunTwo(growth, s, Action(Ftc, 4), Action(Acs, 4));
    RunAppend(growth, s, [Action(Ftc, 4), Action(Acs, 4)], [Action(Ftc, |b|)]);
    RunOne(growth, Run(growth, s, [Action(Ftc, 4), Action(Acs, 4)]), Action(Ftc, |b|));
  }

  /**
   Exactly when the shared buffer is harmless for one command message a and one file message b in every
   interleaving: when the two agree on their common front and whichever is sized first makes room for both.
   */
  lemma SharedBufferSafeIffAgree(growth: Growth, a: Message, b: Message)
    requires Sendable(a) && Sendable(b)
    ensures (forall schedule :: Harmless(Run(growth, Start([], Packet(a), Packet(b)), schedule), a, b))
              <==> Agree(a, b) && Roomy(growth, |a|, |b|)
  {
    hide Run, Packet, Room;
    var s := Start([], Packet(a), Packet(b));
    if Agree(a, b) && Roomy(growth, |a|, |b|) {
      forall schedule ensures Harmless(Run(growth, s, schedule), a, b) {
        AgreeingPairSafe(growth, a, b, schedule);
      }
    } else if !Agree(a, b) {
      var i :| 0 <= i < |a| && i < |b| && a[i] != b[i];
      ClashDelivers(growth, a, b);
      assert Overlay(b, a)[i] == b[i];
      assert [Overlay(b, a)][0] != [a][0];
      assert !Harmless(Run(growth, s, Clash(|a|, |b|)), a, b);
    } else if |b| > Room(growth, |a|) {
      MoveBreaksAcs(growth, a, b);
      assert !Harmless(Run(growth, s, Moved(Acs, Ftc, |a|)), a, b);
    } else {
      MoveBreaksFtc(growth, a, b);
      assert !Harmless(Run(growth, s, Moved(Ftc, Acs, |b|)), a, b);
    }
  }

  /** A vector that doubles when it must move. */
  function Doubling(): Growth {
    (size, n) => Max(2 * size, n)
  }

  /**
   With doubling there is room in every order exactly for messages that both fit the first buffer, or both fit
   the second but not the first, or are equally long.
   */
  lemma RoomyWhenDoubling(m: nat, n: nat)
    ensures Roomy(Doubling(), m, n) <==>
              || m == n
              || (m <= BUFFER_SIZE && n <= BUFFER_SIZE)
              || (BUFFER_SIZE < m <= 2 * BUFFER_SIZE && BUFFER_SIZE < n <= 2 * BUFFER_SIZE)
  {
    assert m > BUFFER_SIZE ==> Doubling()(BUFFER_SIZE, m) == Max(2 * BUFFER_SIZE, m);
    assert n > BUFFER_SIZE ==> Doubling()(BUFFER_SIZE, n) == Max(2 * BUFFER_SIZE, n);
  }
}
