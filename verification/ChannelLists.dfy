/**
 Lists of messages on the two channels that share acs_client_buf_: exactly when every interleaving, for every way
 the library grows a vector, delivers all of them right.
 */
module ChannelLists {
  import opened Bytes
  import opened ChannelFraming
  import opened ChannelThreads
  import opened Sequences

  predicate AllSendable(ms: seq<Message>) {
    forall i :: 0 <= i < |ms| ==> Sendable(ms[i])
  }

  // ----- where a packet is in its stream -----

  lemma {:induction false} PacketsConcat(a: seq<Message>, b: seq<Message>)
    ensures Packets(a + b) == Packets(a) + Packets(b)
  {
    hide Packet;
    if a == [] {
      assert a + b == b;
    } else {
      PacketsConcat(a[1..], b);
      HeadTail(a, b);
      Assoc(Packet(a[0]), Packets(a[1..]), Packets(b));
    }
  }

  lemma OnePacket(m: Message)
    ensures Packets([m]) == Packet(m)
  {
    hide Packet;
    assert [m][1..] == [] && Packet(m) + [] == Packet(m);
  }

  function Offset(ms: seq<Message>, i: nat): nat
    requires i <= |ms|
  {
    |Packets(ms[..i])|
  }

  lemma PacketAt(ms: seq<Message>, i: nat)
    requires i < |ms| && Sendable(ms[i])
    ensures Offset(ms, i + 1) == Offset(ms, i) + 4 + |ms[i]| <= |Packets(ms)|
    ensures Packets(ms)[Offset(ms, i)..Offset(ms, i + 1)] == Packet(ms[i])
  {
    hide Packets, Packet;
    var front, m, rest := ms[..i], ms[i], ms[i + 1..];
    PacketParts(m);
    PacketsConcat(front, [m]);
    PacketsConcat(front + [m], rest);
    OnePacket(m);
    assert ms[..i + 1] == front + [m] && ms == front + [m] + rest;
  }

  lemma Ends(ms: seq<Message>)
    ensures Offset(ms, 0) == 0 && Offset(ms, |ms|) == |Packets(ms)|
  {
    assert ms[..0] == [] && ms[..|ms|] == ms;
  }

  // ----- one channel at message i of its list -----

  /** The channel as if its connection carried message i alone. */
  function Slice(c: Channel, ms: seq<Message>, i: nat): Channel
    requires i < |ms| && Offset(ms, i) <= c.pos
  {
    Channel(Packet(ms[i]), c.pos - Offset(ms, i), c.reader, [])
  }

  ghost predicate ReadsAt(c: Channel, buffer: Buffer, ms: seq<Message>, i: nat) {
    && i <= |ms| && c.stream == Packets(ms) && c.delivered == ms[..i] && Offset(ms, i) <= c.pos
    && if i == |ms| then c.pos == Offset(ms, i) && (c.reader == ReadLength(0) || c.reader == Closed)
       else Reads(Slice(c, ms, i), buffer, ms[i])
  }

  /** Between two messages nothing depends on the buffer. */
  ghost predicate Between(c: Channel, ms: seq<Message>, i: nat) {
    && i <= |ms| && c.stream == Packets(ms) && c.delivered == ms[..i] && c.pos == Offset(ms, i)
    && c.reader == ReadLength(0)
  }

  lemma BetweenReads(c: Channel, buffer: Buffer, ms: seq<Message>, i: nat)
    requires Between(c, ms, i) && AllSendable(ms)
    ensures ReadsAt(c, buffer, ms, i)
    ensures i < |ms| ==> Slice(c, ms, i) == Open(Packet(ms[i]))
  {
    hide Packet, Packets;
    if i < |ms| {
      OpenReads(ms[i], buffer);
      hide Reads;
    }
  }

  lemma OpenBetween(ms: seq<Message>)
    ensures Between(Open(Packets(ms)), ms, 0)
  {
    Ends(ms);
    hide Packets;
  }

  lemma FitsInStream(c: Channel, buffer: Buffer, ms: seq<Message>, i: nat)
    requires ReadsAt(c, buffer, ms, i) && AllSendable(ms)
    ensures c.Fits(buffer)
  {
    Ends(ms);
    if i < |ms| {
      PacketAt(ms, i);
      PacketParts(ms[i]);
    }
    hide Packet, Packets;
  }

  /** `s` is `c` with only `n` bytes of its stream, from `at` on, and nothing delivered. */
  ghost predicate Window(c: Channel, s: Channel, at: nat, n: nat) {
    && at + n <= |c.stream| && s.stream == c.stream[at..at + n] && c.pos == at + s.pos && s.pos <= n
    && s.reader == c.reader && s.delivered == []
  }

  /** What a step does to `c` if it does `s'` to its window. */
  ghost predicate Follows(c: Channel, c': Channel, s': Channel, at: nat) {
    && c'.reader == s'.reader && c'.stream == c.stream && c'.pos == at + s'.pos
    && c'.delivered == c.delivered + s'.delivered
  }

  /** A step while the length is read. */
  lemma LengthAdvance(growth: Growth, c: Channel, buffer: Buffer, answer: int)
    requires c.Fits(buffer) && c.reader.ReadLength?
    ensures var got, k := c.reader.got, Min(answer, |c.stream| - c.pos);
            var m := Min(k, 4 - got);
            && (k <= 0 ==> Advance(growth, c, buffer, answer) == (c.(reader := Closed), buffer))
            && (k > 0 && got + m < 4 ==>
                  Advance(growth, c, buffer, answer) == (c.(pos := c.pos + m, reader := ReadLength(got + m)), buffer))
            && (k > 0 && got + m == 4 ==>
                  var n := Length(c.stream[c.pos - got..c.pos - got + 4]);
                  Advance(growth, c, buffer, answer) ==
                    if GoodLength(n) then Sized(growth, c.(pos := c.pos + m), buffer, n)
                    else (c.(pos := c.pos + m, reader := Closed), buffer))
  {
    hide Length, Resized, Sized;
    var got := c.reader.got;
    assert c.pos + (4 - got) - 4 == c.pos - got;
  }

  lemma LengthWindow(growth: Growth, c: Channel, s: Channel, at: nat, n: nat, buffer: Buffer, answer: int)
    requires Window(c, s, at, n) && c.Fits(buffer) && s.Fits(buffer)
    requires s.reader.ReadLength? && s.pos == s.reader.got && 4 <= n
    ensures var (r, t) := (Advance(growth, c, buffer, answer), Advance(growth, s, buffer, answer));
            r.1 == t.1 && Follows(c, r.0, t.0, at)
  {
    hide Length, Resized, Sized, Advance;
    LengthAdvance(growth, c, buffer, answer);
    LengthAdvance(growth, s, buffer, answer);
    assert c.delivered + [] == c.delivered;
    var got, k := s.reader.got, Min(answer, n - s.pos);
    if k > 0 && got + Min(k, 4 - got) == 4 {
      var length := Length(s.stream[0..4]);
      assert s.stream[0..4] == c.stream[at..at + 4];
      if GoodLength(length) {
        SizedAlike(growth, c.(pos := at + 4), s.(pos := 4), buffer, length);
      }
    }
  }

  lemma SizedAlike(growth: Growth, c: Channel, s: Channel, buffer: Buffer, n: nat)
    requires n > 0 && c.pos <= |c.stream| && s.pos <= |s.stream|
    ensures Sized(growth, s, buffer, n).1 == Sized(growth, c, buffer, n).1
    ensures Sized(growth, s, buffer, n).0 == s.(reader := Sized(growth, c, buffer, n).0.reader)
    ensures Sized(growth, c, buffer, n).0 == c.(reader := Sized(growth, c, buffer, n).0.reader)
  {
    hide Resized;
  }

  lemma BodyWindow(growth: Growth, c: Channel, s: Channel, at: nat, n: nat, buffer: Buffer, answer: int)
    requires Window(c, s, at, n) && c.Fits(buffer) && s.Fits(buffer)
    requires s.reader.ReadBody? && s.pos == 4 + s.reader.got && n == 4 + s.reader.length
    ensures var (r, t) := (Advance(growth, c, buffer, answer), Advance(growth, s, buffer, answer));
            r.1 == t.1 && Follows(c, r.0, t.0, at)
  {
    hide Written, Sized, Resized;
    var to := Advance(growth, s, buffer, answer).0.pos;
    SliceOfSlice(c.stream, at, n, s.pos, to - s.pos);
    assert c.delivered + [] == c.delivered;
  }

  lemma QuietWindow(growth: Growth, c: Channel, s: Channel, at: nat, n: nat, buffer: Buffer, answer: int)
    requires Window(c, s, at, n) && c.Fits(buffer) && s.Fits(buffer)
    requires !s.reader.ReadLength? && !s.reader.ReadBody?
    ensures var (r, t) := (Advance(growth, c, buffer, answer), Advance(growth, s, buffer, answer));
            r.1 == t.1 && Follows(c, r.0, t.0, at)
  {
    assert c.delivered + [] == c.delivered;
    assert forall m: Message :: c.delivered + ([] + [m]) == c.delivered + [m];
  }

  /** A step in the stream is the step in the packet. */
  lemma SliceStep(growth: Growth, c: Channel, buffer: Buffer, ms: seq<Message>, i: nat, answer: int)
    requires ReadsAt(c, buffer, ms, i) && AllSendable(ms) && i < |ms| && c.Fits(buffer)
    ensures var (r, t) := (Advance(growth, c, buffer, answer), Advance(growth, Slice(c, ms, i), buffer, answer));
            r.1 == t.1 && Follows(c, r.0, t.0, Offset(ms, i))
  {
    hide Packets, Packet, Header, Advance;
    PacketAt(ms, i);
    PacketParts(ms[i]);
    var s, at, n := Slice(c, ms, i), Offset(ms, i), 4 + |ms[i]|;
    hide Offset;
    assert Window(c, s, at, n);
    if s.reader.ReadLength? {
      LengthWindow(growth, c, s, at, n, buffer, answer);
    } else if s.reader.ReadBody? {
      BodyWindow(growth, c, s, at, n, buffer, answer);
    } else {
      QuietWindow(growth, c, s, at, n, buffer, answer);
    }
  }

  /** The message after a step: the same, or the next once the callback is done. */
  function NextIndex(growth: Growth, c: Channel, buffer: Buffer, ms: seq<Message>, i: nat, answer: int): nat
    requires i < |ms| && Offset(ms, i) <= c.pos && Slice(c, ms, i).Fits(buffer)
  {
    i + |Advance(growth, Slice(c, ms, i), buffer, answer).0.delivered|
  }

  lemma ReadsAtStep(growth: Growth, c: Channel, buffer: Buffer, ms: seq<Message>, i: nat, answer: int)
    requires ReadsAt(c, buffer, ms, i) && AllSendable(ms) && c.Fits(buffer)
    ensures var (c', buffer') := Advance(growth, c, buffer, answer);
            if i == |ms| then ReadsAt(c', buffer', ms, i) && buffer' == buffer
            else ReadsAt(c', buffer', ms, NextIndex(growth, c, buffer, ms, i, answer))
  {
    hide Packets, Packet, Reads;
    if i == |ms| {
      Ends(ms);
    } else {
      hide Advance;
      SliceStep(growth, c, buffer, ms, i, answer);
      var s := Slice(c, ms, i);
      ReadsFits(s, buffer, ms[i]);
      ReadsStep(growth, s, buffer, ms[i], answer);
      OneDelivered(growth, s, buffer, ms[i], answer);
      var (c', buffer') := Advance(growth, c, buffer, answer);
      var s' := Advance(growth, s, buffer, answer).0;
      hide ReadsAt, Offset;
      if s'.delivered == [] {
        StaysAt(c, c', s', buffer', ms, i);
      } else {
        MovesOn(c, c', s', buffer', ms, i);
      }
    }
  }

  lemma ReadsFits(c: Channel, buffer: Buffer, m: Message)
    requires Reads(c, buffer, m)
    ensures c.Fits(buffer) && c.stream == Packet(m)
  {
    hide Packet;
  }

  lemma StaysAt(c: Channel, c': Channel, s': Channel, buffer: Buffer, ms: seq<Message>, i: nat)
    requires i < |ms| && c.stream == Packets(ms) && c.delivered == ms[..i] && Follows(c, c', s', Offset(ms, i))
    requires s'.delivered == [] && s'.stream == Packet(ms[i]) && Reads(s', buffer, ms[i])
    ensures ReadsAt(c', buffer, ms, i)
  {
    hide Packets, Packet, Reads, Offset;
    assert c.delivered + [] == c.delivered;
    assert Slice(c', ms, i) == s';
  }

  lemma MovesOn(c: Channel, c': Channel, s': Channel, buffer: Buffer, ms: seq<Message>, i: nat)
    requires i < |ms| && AllSendable(ms)
    requires c.stream == Packets(ms) && c.delivered == ms[..i] && Follows(c, c', s', Offset(ms, i))
    requires s'.delivered == [ms[i]] && s'.reader == ReadLength(0) && s'.pos == |Packet(ms[i])|
    ensures Between(c', ms, i + 1) && ReadsAt(c', buffer, ms, i + 1)
  {
    hide Packets, Packet, Offset;
    PacketAt(ms, i);
    PacketParts(ms[i]);
    assert ms[..i] + [ms[i]] == ms[..i + 1];
    assert Between(c', ms, i + 1);
    hide Between, Follows;
    BetweenReads(c', buffer, ms, i + 1);
  }

  /** A step delivers nothing, or the message and is between messages. */
  lemma OneDelivered(growth: Growth, s: Channel, buffer: Buffer, m: Message, answer: int)
    requires Reads(s, buffer, m) && s.delivered == []
    ensures var s' := Advance(growth, s, buffer, answer).0;
            && s'.stream == s.stream
            && (s'.delivered == [] || (s'.delivered == [m] && s'.reader == ReadLength(0) && s'.pos == |s.stream|))
  {
    hide Packet, Resized, Length;
  }

  // ----- when both lists get through -----

  predicate AllAgree(acs: seq<Message>, ftc: seq<Message>) {
    forall i, j :: 0 <= i < |acs| && 0 <= j < |ftc| ==> Agree(acs[i], ftc[j])
  }

  /** No message is longer than a new buffer and the other channel's first message. */
  predicate Fitting(ms: seq<Message>, others: seq<Message>) {
    others != [] ==> forall i :: 0 <= i < |ms| ==> |ms[i]| <= Max(BUFFER_SIZE, |others[0]|)
  }

  /** Nothing is shared if one list is empty; else the messages agree pairwise and fit once the first are sized. */
  predicate Harmonious(acs: seq<Message>, ftc: seq<Message>) {
    acs == [] || ftc == [] || (AllAgree(acs, ftc) && Fitting(acs, ftc) && Fitting(ftc, acs))
  }

  /** What both channels need: the longer of a new buffer and the first message. */
  function Need(ms: seq<Message>): nat {
    if ms == [] then BUFFER_SIZE else Max(BUFFER_SIZE, |ms[0]|)
  }

  lemma NeedsMeet(acs: seq<Message>, ftc: seq<Message>)
    requires acs != [] && ftc != [] && Fitting(acs, ftc) && Fitting(ftc, acs)
    ensures Need(acs) == Need(ftc)
    ensures forall i :: 0 <= i < |acs| ==> |acs[i]| <= Need(acs)
    ensures forall i :: 0 <= i < |ftc| ==> |ftc[i]| <= Need(acs)
  {
    assert |acs[0]| <= Max(BUFFER_SIZE, |ftc[0]|) && |ftc[0]| <= Max(BUFFER_SIZE, |acs[0]|);
  }

  /** The buffer is as new until a thread has sized it, and then never moves again. */
  ghost predicate Roomed(s: System, need: nat) {
    |s.acsBuffer.bytes| >= BUFFER_SIZE && (HasSized(s.acs) || HasSized(s.ftc) ==> |s.acsBuffer.bytes| >= need)
  }

  ghost predicate BothRead(s: System, acs: seq<Message>, ftc: seq<Message>) {
    && s.Fits()
    && ReadsAt(s.acs, s.acsBuffer, acs, |s.acs.delivered|) && ReadsAt(s.ftc, s.acsBuffer, ftc, |s.ftc.delivered|)
    && (acs != [] && ftc != [] ==> Roomed(s, Need(acs)))
  }

  /** One thread's step, `c` on list `ms`, seen from the other, `d` on list `os`. */
  lemma OtherUndisturbed(growth: Growth, c: Channel, d: Channel, buffer: Buffer, ms: seq<Message>, i: nat,
      os: seq<Message>, j: nat, answer: int)
    requires ReadsAt(c, buffer, ms, i) && ReadsAt(d, buffer, os, j) && AllSendable(ms) && AllSendable(os)
    requires c.Fits(buffer) && AllAgree(ms, os)
    requires d.Points() ==> Advance(growth, c, buffer, answer).1.place == buffer.place
    ensures ReadsAt(d, Advance(growth, c, buffer, answer).1, os, j)
  {
    ReadsAtStep(growth, c, buffer, ms, i, answer);
    if i < |ms| && j < |os| {
      SliceStep(growth, c, buffer, ms, i, answer);
      var s, t := Slice(c, ms, i), Slice(d, os, j);
      assert Agree(ms[i], os[j]);
      hide Reads, Advance, Packets, Packet, Offset, Agree;
      AgreeBack(ms[i], os[j]);
      ReadsUndisturbed(growth, t, s, buffer, os[j], ms[i], answer);
    }
    hide Packets, Packet, Offset, Advance, Reads;
  }

  lemma AgreeBack(a: Message, b: Message)
    requires Agree(a, b)
    ensures forall i :: 0 <= i < |b| && i < |a| ==> b[i] == a[i]
  {
  }

  /** The step of a thread whose messages fit moves the buffer only if neither thread has sized it. */
  lemma PlaceKept(growth: Growth, c: Channel, buffer: Buffer, ms: seq<Message>, i: nat, need: nat, answer: int)
    requires ReadsAt(c, buffer, ms, i) && AllSendable(ms) && c.Fits(buffer)
    requires ms != [] && need == Need(ms) && forall k :: 0 <= k < |ms| ==> |ms[k]| <= need
    requires |buffer.bytes| >= BUFFER_SIZE && (HasSized(c) ==> |buffer.bytes| >= need)
    ensures var (c', buffer') := Advance(growth, c, buffer, answer);
            && (|buffer.bytes| >= need ==> buffer'.place == buffer.place)
            && |buffer'.bytes| >= |buffer.bytes| && (HasSized(c') ==> |buffer'.bytes| >= need)
  {
    ReadsAtStep(growth, c, buffer, ms, i, answer);
    if i < |ms| {
      SliceStep(growth, c, buffer, ms, i, answer);
      StepResizes(growth, Slice(c, ms, i), buffer, ms[i], answer);
      Ends(ms);
      if i > 0 {
        SizedOnce(ms, i);
      }
    }
    hide Reads, Advance, Packets, Packet, Offset;
  }

  lemma SizedOnce(ms: seq<Message>, i: nat)
    requires 0 < i <= |ms| && AllSendable(ms)
    ensures Offset(ms, i) >= 4
  {
    hide Packets;
    PacketAt(ms, i - 1);
  }

  lemma UnsizedIsFirst(c: Channel, buffer: Buffer, ms: seq<Message>, i: nat)
    requires ReadsAt(c, buffer, ms, i) && AllSendable(ms) && !HasSized(c)
    ensures !c.Points()
  {
    if i > 0 {
      SizedOnce(ms, i);
    }
    Ends(ms);
    if i < |ms| {
      UnsizedPointsNowhere(Slice(c, ms, i), buffer, ms[i]);
    }
    hide Packets, Packet, Reads;
  }

  lemma EmptyPointsNowhere(c: Channel, buffer: Buffer, i: nat)
    requires ReadsAt(c, buffer, [], i)
    ensures !c.Points()
  {
  }

  /** The step keeps both readers right: thread `c` on `ms` steps, `d` on `os` does not. */
  lemma StepKeeps(growth: Growth, c: Channel, d: Channel, buffer: Buffer, ms: seq<Message>, i: nat, os: seq<Message>,
      j: nat, answer: int)
    requires AllSendable(ms) && AllSendable(os) && c.Fits(buffer)
    requires ReadsAt(c, buffer, ms, i) && ReadsAt(d, buffer, os, j)
    requires ms == [] || os == [] || (AllAgree(ms, os) && Fitting(ms, os) && Fitting(os, ms))
    requires ms != [] && os != [] ==>
               |buffer.bytes| >= BUFFER_SIZE && (HasSized(c) || HasSized(d) ==> |buffer.bytes| >= Need(ms))
    ensures var (c', buffer') := Advance(growth, c, buffer, answer);
            && ReadsAt(c', buffer', ms, |c'.delivered|) && ReadsAt(d, buffer', os, j)
            && (ms != [] && os != [] ==>
                  && |buffer'.bytes| >= BUFFER_SIZE
                  && (HasSized(c') || HasSized(d) ==> |buffer'.bytes| >= Need(ms)))
  {
    ReadsAtStep(growth, c, buffer, ms, i, answer);
    IndexIsCount(growth, c, buffer, ms, i, answer);
    if os == [] {
      EmptyPointsNowhere(d, buffer, j);
    } else if ms != [] {
      NeedsMeet(ms, os);
      PlaceKept(growth, c, buffer, ms, i, Need(ms), answer);
      if !HasSized(d) {
        UnsizedIsFirst(d, buffer, os, j);
      }
    }
    hide Advance, Packets, Packet, Offset, Reads, Agree, Need;
    OtherUndisturbed(growth, c, d, buffer, ms, i, os, j, answer);
  }

  lemma IndexIsCount(growth: Growth, c: Channel, buffer: Buffer, ms: seq<Message>, i: nat, answer: int)
    requires ReadsAt(c, buffer, ms, i) && AllSendable(ms) && c.Fits(buffer)
    ensures |Advance(growth, c, buffer, answer).0.delivered|
         == if i == |ms| then i else NextIndex(growth, c, buffer, ms, i, answer)
  {
    if i < |ms| {
      SliceStep(growth, c, buffer, ms, i, answer);
      hide Advance;
    }
    hide Packets, Packet, Offset, Reads;
  }

  lemma BothStep(growth: Growth, s: System, acs: seq<Message>, ftc: seq<Message>, a: Action)
    requires AllSendable(acs) && AllSendable(ftc) && Harmonious(acs, ftc) && BothRead(s, acs, ftc)
    ensures BothRead(Step(growth, s, a), acs, ftc)
  {
    hide Advance, ReadsAt, HasSized, AllSendable;
    match a.thread {
      case Ams =>
      case Acs =>
        StepKeeps(growth, s.acs, s.ftc, s.acsBuffer, acs, |s.acs.delivered|, ftc, |s.ftc.delivered|, a.answer);
      case Ftc =>
        AgreeSwapped(acs, ftc);
        if acs != [] && ftc != [] {
          NeedsMeet(acs, ftc);
        }
        StepKeeps(growth, s.ftc, s.acs, s.acsBuffer, ftc, |s.ftc.delivered|, acs, |s.acs.delivered|, a.answer);
    }
  }

  lemma AgreeSwapped(acs: seq<Message>, ftc: seq<Message>)
    ensures AllAgree(acs, ftc) <==> AllAgree(ftc, acs)
  {
    assert forall a: Message, b: Message :: Agree(a, b) <==> Agree(b, a);
    hide Agree;
  }

  lemma {:induction false} HarmoniousRuns(growth: Growth, acs: seq<Message>, ftc: seq<Message>, schedule: seq<Action>)
    requires AllSendable(acs) && AllSendable(ftc) && Harmonious(acs, ftc)
    ensures BothRead(Run(growth, Start([], Packets(acs), Packets(ftc)), schedule), acs, ftc)
    decreases |schedule|
  {
    hide Packets, Harmonious, Step;
    var s := Start([], Packets(acs), Packets(ftc));
    if schedule == [] {
      StartReads(acs, ftc);
    } else {
      HarmoniousRuns(growth, acs, ftc, schedule[..|schedule| - 1]);
      hide BothRead, AllSendable;
      BothStep(growth, Run(growth, s, schedule[..|schedule| - 1]), acs, ftc, schedule[|schedule| - 1]);
    }
  }

  lemma StartReads(acs: seq<Message>, ftc: seq<Message>)
    requires AllSendable(acs) && AllSendable(ftc)
    ensures BothRead(Start([], Packets(acs), Packets(ftc)), acs, ftc)
  {
    OpenBetween(acs);
    OpenBetween(ftc);
    BetweenReads(Open(Packets(acs)), NewBuffer(), acs, 0);
    BetweenReads(Open(Packets(ftc)), NewBuffer(), ftc, 0);
    hide Packets, ReadsAt, AllSendable;
  }

  lemma ReadsAtDelivers(c: Channel, buffer: Buffer, ms: seq<Message>, i: nat)
    requires ReadsAt(c, buffer, ms, i) && AllSendable(ms)
    ensures DeliversInOrder(c, ms)
  {
    hide Packets, Packet;
    Ends(ms);
    if i < |ms| {
      PacketAt(ms, i);
      PacketParts(ms[i]);
    } else {
      assert ms[..i] == ms;
    }
    hide Offset;
  }

  // ----- what goes wrong otherwise -----

  /** A vector that asks for no more than it needs. */
  function Tight(): Growth {
    (size, n) => 0
  }

  /** One thread alone. */
  function Alone(growth: Growth, c: Channel, buffer: Buffer, answers: seq<int>): (r: (Channel, Buffer))
    requires c.Fits(buffer)
    ensures r.0.Fits(r.1)
  {
    if answers == [] then (c, buffer)
    else
      var (c', buffer') := Alone(growth, c, buffer, answers[..|answers| - 1]);
      Advance(growth, c', buffer', answers[|answers| - 1])
  }

  function By(thread: Thread, answers: seq<int>): seq<Action> {
    seq(|answers|, i requires 0 <= i < |answers| => Action(thread, answers[i]))
  }

  lemma ByFront(thread: Thread, answers: seq<int>)
    requires answers != []
    ensures var b := By(thread, answers);
            && b[..|b| - 1] == By(thread, answers[..|answers| - 1])
            && b[|b| - 1] == Action(thread, answers[|answers| - 1])
  {
  }

  lemma {:induction false} RunAcs(growth: Growth, s: System, answers: seq<int>)
    requires s.Fits()
    ensures var r := Alone(growth, s.acs, s.acsBuffer, answers);
            Run(growth, s, By(Acs, answers)) == s.(acs := r.0, acsBuffer := r.1)
  {
    hide Advance;
    if answers == [] {
    } else {
      RunAcs(growth, s, answers[..|answers| - 1]);
      ByFront(Acs, answers);
      hide By;
    }
  }

  lemma {:induction false} RunFtc(growth: Growth, s: System, answers: seq<int>)
    requires s.Fits()
    ensures var r := Alone(growth, s.ftc, s.acsBuffer, answers);
            Run(growth, s, By(Ftc, answers)) == s.(ftc := r.0, acsBuffer := r.1)
  {
    hide Advance;
    if answers == [] {
    } else {
      RunFtc(growth, s, answers[..|answers| - 1]);
      ByFront(Ftc, answers);
      hide By;
    }
  }

  lemma {:induction false} AloneMore(growth: Growth, c: Channel, buffer: Buffer, a: seq<int>, b: seq<int>)
    requires c.Fits(buffer)
    ensures var r := Alone(growth, c, buffer, a); Alone(growth, c, buffer, a + b) == Alone(growth, r.0, r.1, b)
    decreases |b|
  {
    hide Advance;
    if b == [] {
      assert a + b == a;
    } else {
      AloneMore(growth, c, buffer, a, b[..|b| - 1]);
      assert (a + b)[..|a + b| - 1] == a + b[..|b| - 1];
    }
  }

  lemma AloneTwo(growth: Growth, c: Channel, buffer: Buffer, x: int, y: int)
    requires c.Fits(buffer)
    ensures var r := Advance(growth, c, buffer, x); Alone(growth, c, buffer, [x, y]) == Advance(growth, r.0, r.1, y)
  {
    hide Advance;
    assert [x, y][..1] == [x] && [x][..0] == [];
    assert Alone(growth, c, buffer, [x]) == Advance(growth, c, buffer, x);
  }

  /** The buffer is no larger than asked for, nor has it moved back. */
  ghost predicate Capped(buffer: Buffer, cap: nat) {
    |buffer.bytes| <= buffer.capacity <= cap
  }

  lemma TightStep(c: Channel, buffer: Buffer, m: Message, answer: int, cap: nat)
    requires Reads(c, buffer, m) && Capped(buffer, cap) && |m| <= cap
    ensures Capped(Advance(Tight(), c, buffer, answer).1, cap)
  {
    hide Packet, Header, Length;
    PacketParts(m);
    if c.reader.ReadLength? {
      StepResizes(Tight(), c, buffer, m, answer);
      hide Advance;
    }
  }

  lemma PlaceGrows(growth: Growth, c: Channel, buffer: Buffer, answer: int)
    requires c.Fits(buffer)
    ensures Advance(growth, c, buffer, answer).1.place >= buffer.place
  {
    hide Written, Length;
  }

  /** The thread reads message i whole: its length, then its bytes. */
  lemma ReadsMessage(growth: Growth, c: Channel, buffer: Buffer, ms: seq<Message>, i: nat)
    requires Between(c, ms, i) && AllSendable(ms) && i < |ms| && c.Fits(buffer)
    ensures var (c', buffer') := Alone(growth, c, buffer, [4, |ms[i]|]);
            && ReadsAt(c', buffer', ms, i) && c'.reader == Filled(|ms[i]|) && buffer'.bytes[..|ms[i]|] == ms[i]
            && buffer'.place >= buffer.place && |buffer'.bytes| >= |buffer.bytes|
            && (forall k :: |ms[i]| <= k < |buffer.bytes| ==> buffer'.bytes[k] == buffer.bytes[k])
            && (growth == Tight() ==>
                  forall cap: nat :: Capped(buffer, cap) && |ms[i]| <= cap ==> Capped(buffer', cap))
  {
    hide Packets, Packet, Advance, Reads;
    var m := ms[i];
    BetweenReads(c, buffer, ms, i);
    var s := Slice(c, ms, i);
    ReadsWhole(growth, s, buffer, m);
    SliceStep(growth, c, buffer, ms, i, 4);
    ReadsAtStep(growth, c, buffer, ms, i, 4);
    PlaceGrows(growth, c, buffer, 4);
    var (c1, buffer1) := Advance(growth, c, buffer, 4);
    var (s1, _) := Advance(growth, s, buffer, 4);
    StillFirst(growth, s, buffer, m);
    ReadsStep(growth, s, buffer, m, 4);
    assert c1.delivered + [] == c1.delivered && c.delivered + [] == c.delivered;
    assert Slice(c1, ms, i) == s1;
    SliceStep(growth, c1, buffer1, ms, i, |m|);
    ReadsAtStep(growth, c1, buffer1, ms, i, |m|);
    PlaceGrows(growth, c1, buffer1, |m|);
    AloneTwo(growth, c, buffer, 4, |m|);
    if growth == Tight() {
      forall cap: nat | Capped(buffer, cap) && |m| <= cap ensures Capped(Advance(growth, c1, buffer1, |m|).1, cap) {
        TightStep(s, buffer, m, 4, cap);
        TightStep(s1, buffer1, m, |m|, cap);
      }
    }
  }

  lemma StillFirst(growth: Growth, s: Channel, buffer: Buffer, m: Message)
    requires Sendable(m) && s == Open(Packet(m)) && s.Fits(buffer)
    ensures Advance(growth, s, buffer, 4).0.delivered == [] && Advance(growth, s, buffer, 4).0.stream == s.stream
    ensures var place := Advance(growth, s, buffer, 4).1.place;
            Advance(growth, s, buffer, 4).0.reader == ReadBody(|m|, 0, place)
  {
    LengthRead(growth, s, buffer, m);
    hide Advance, Packet, Resized;
  }

  /** With its message read, the thread looks where the buffer is and calls back with what is there. */
  lemma CallsBack(growth: Growth, c: Channel, buffer: Buffer, n: nat)
    requires c.Fits(buffer) && c.reader == Filled(n)
    ensures Alone(growth, c, buffer, [1, 1])
         == (c.(reader := ReadLength(0), delivered := c.delivered + [buffer.bytes[..n]]), buffer)
  {
    AloneTwo(growth, c, buffer, 1, 1);
  }

  function Answers(ms: seq<Message>): seq<int> {
    if ms == [] then [] else Answers(ms[..|ms| - 1]) + [4, |ms[|ms| - 1]|] + [1, 1]
  }

  /** Alone, a thread delivers the messages before message i. */
  lemma {:induction false} DeliversFront(growth: Growth, c: Channel, buffer: Buffer, ms: seq<Message>, i: nat)
    requires Between(c, ms, 0) && AllSendable(ms) && i <= |ms| && c.Fits(buffer)
    ensures var (c', buffer') := Alone(growth, c, buffer, Answers(ms[..i]));
            && Between(c', ms, i) && buffer'.place >= buffer.place && |buffer'.bytes| >= |buffer.bytes|
            && (growth == Tight() ==>
                  forall cap: nat :: Capped(buffer, cap) && (forall k :: 0 <= k < i ==> |ms[k]| <= cap) ==>
                    Capped(buffer', cap))
  {
    hide Advance, Packets, Packet, Reads;
    if i == 0 {
      assert ms[..0] == [];
    } else {
      DeliversFront(growth, c, buffer, ms, i - 1);
      assert ms[..i][..i - 1] == ms[..i - 1];
      var front, m := Answers(ms[..i - 1]), ms[i - 1];
      assert Answers(ms[..i]) == front + [4, |m|] + [1, 1];
      var (c1, buffer1) := Alone(growth, c, buffer, front);
      ReadsMessage(growth, c1, buffer1, ms, i - 1);
      AloneMore(growth, c, buffer, front, [4, |m|]);
      AloneMore(growth, c, buffer, front + [4, |m|], [1, 1]);
      var (c2, buffer2) := Alone(growth, c1, buffer1, [4, |m|]);
      CallsBack(growth, c2, buffer2, |m|);
      hide Alone, Answers;
      NextBetween(c2, buffer2, ms, i - 1);
    }
  }

  lemma NextBetween(c: Channel, buffer: Buffer, ms: seq<Message>, i: nat)
    requires ReadsAt(c, buffer, ms, i) && i < |ms| && AllSendable(ms) && c.reader == Filled(|ms[i]|)
    ensures Between(c.(reader := ReadLength(0), delivered := c.delivered + [ms[i]]), ms, i + 1)
  {
    PacketAt(ms, i);
    PacketParts(ms[i]);
    hide Packets, Packet, Offset;
    assert ms[..i] + [ms[i]] == ms[..i + 1];
  }

  // ----- a pair of messages that disagree -----

  /** Both threads get to their message, read it whole, the command thread first, which then calls back. */
  function ListClash(acs: seq<Message>, ftc: seq<Message>, i: nat, j: nat): seq<Action>
    requires i < |acs| && j < |ftc|
  {
    By(Acs, Answers(acs[..i])) + By(Ftc, Answers(ftc[..j])) + By(Acs, [4, |acs[i]|]) + By(Ftc, [4, |ftc[j]|])
    + By(Acs, [1, 1])
  }

  lemma ClashSpoils(growth: Growth, acs: seq<Message>, ftc: seq<Message>, i: nat, j: nat)
    requires AllSendable(acs) && AllSendable(ftc) && i < |acs| && j < |ftc| && !Agree(acs[i], ftc[j])
    ensures !DeliversInOrder(Run(growth, Start([], Packets(acs), Packets(ftc)), ListClash(acs, ftc, i, j)).acs, acs)
  {
    hide Run, Packets, Packet, Advance, Alone, Answers, By, Reads;
    var a, b := acs[i], ftc[j];
    var p :| 0 <= p < |a| && p < |b| && a[p] != b[p];
    var s0 := Start([], Packets(acs), Packets(ftc));
    OpenBetween(acs);
    OpenBetween(ftc);
    var one, two := By(Acs, Answers(acs[..i])), By(Ftc, Answers(ftc[..j]));
    var three, four := By(Acs, [4, |a|]), By(Ftc, [4, |b|]);
    RunAcs(growth, s0, Answers(acs[..i]));
    DeliversFront(growth, s0.acs, s0.acsBuffer, acs, i);
    var s1 := Run(growth, s0, one);
    RunFtc(growth, s1, Answers(ftc[..j]));
    DeliversFront(growth, s1.ftc, s1.acsBuffer, ftc, j);
    var s2 := Run(growth, s1, two);
    RunAcs(growth, s2, [4, |a|]);
    ReadsMessage(growth, s2.acs, s2.acsBuffer, acs, i);
    var s3 := Run(growth, s2, three);
    RunFtc(growth, s3, [4, |b|]);
    ReadsMessage(growth, s3.ftc, s3.acsBuffer, ftc, j);
    var s4 := Run(growth, s3, four);
    RunAcs(growth, s4, [1, 1]);
    CallsBack(growth, s4.acs, s4.acsBuffer, |a|);
    assert s4.acsBuffer.bytes[..|b|][p] == b[p];
    Spoiled(acs, i, s4.acsBuffer.bytes[..|a|], p);
    RunFour(growth, s0, one, two, three, four);
    RunAppend(growth, s0, one + two + three + four, By(Acs, [1, 1]));
  }

  lemma Spoiled(ms: seq<Message>, i: nat, wrong: Message, p: nat)
    requires i < |ms| && |wrong| == |ms[i]| && p < |wrong| && wrong[p] != ms[i][p]
    ensures !(ms[..i] + [wrong] <= ms)
  {
    assert (ms[..i] + [wrong])[i] != ms[i];
  }

  lemma RunFour(growth: Growth, s: System, a: seq<Action>, b: seq<Action>, c: seq<Action>, d: seq<Action>)
    requires s.Fits()
    ensures Run(growth, s, a + b + c + d) == Run(growth, Run(growth, Run(growth, Run(growth, s, a), b), c), d)
  {
    hide Run;
    RunAppend(growth, s, a, b);
    RunAppend(growth, s, a + b, c);
    RunAppend(growth, s, a + b + c, d);
  }

  // ----- a message that is too long -----

  /**
   The file thread takes its pointer for its first message; the command thread gets to message i and sizes the
   buffer for it; the file thread reads.
   */
  function ListMove(acs: seq<Message>, ftc: seq<Message>, i: nat): seq<Action>
    requires i < |acs| && ftc != []
  {
    By(Ftc, [4]) + By(Acs, Answers(acs[..i])) + By(Acs, [4]) + By(Ftc, [|ftc[0]|])
  }

  lemma AloneOne(growth: Growth, c: Channel, buffer: Buffer, x: int)
    requires c.Fits(buffer)
    ensures Alone(growth, c, buffer, [x]) == Advance(growth, c, buffer, x)
  {
    hide Advance;
    assert [x][..0] == [];
  }

  /** The thread sizes the buffer for message i. */
  lemma SizesFor(growth: Growth, c: Channel, buffer: Buffer, ms: seq<Message>, i: nat)
    requires Between(c, ms, i) && AllSendable(ms) && i < |ms| && c.Fits(buffer)
    ensures var (c', buffer') := Alone(growth, c, buffer, [4]);
            && buffer' == Resized(growth, buffer, |ms[i]|) && c'.reader == ReadBody(|ms[i]|, 0, buffer'.place)
            && c'.pos < |c'.stream|
  {
    hide Packets, Packet, Advance, Reads, Resized;
    AloneOne(growth, c, buffer, 4);
    BetweenReads(c, buffer, ms, i);
    SliceStep(growth, c, buffer, ms, i, 4);
    var s := Slice(c, ms, i);
    LengthRead(growth, s, buffer, ms[i]);
    PacketAt(ms, i);
  }

  lemma LongMoves(acs: seq<Message>, ftc: seq<Message>, i: nat)
    requires AllSendable(acs) && AllSendable(ftc) && i < |acs| && ftc != []
    requires var cap := Max(BUFFER_SIZE, |ftc[0]|);
             |acs[i]| > cap && forall k :: 0 <= k < i ==> |acs[k]| <= cap
    ensures Run(Tight(), Start([], Packets(acs), Packets(ftc)), ListMove(acs, ftc, i)).ftc.reader == Broken
  {
    hide Run, Packets, Packet, Advance, Alone, Answers, By, Reads;
    var s0, cap := Start([], Packets(acs), Packets(ftc)), Max(BUFFER_SIZE, |ftc[0]|);
    OpenBetween(acs);
    OpenBetween(ftc);
    RunFtc(Tight(), s0, [4]);
    SizesFor(Tight(), s0.ftc, s0.acsBuffer, ftc, 0);
    var s1 := Run(Tight(), s0, By(Ftc, [4]));
    assert Capped(s1.acsBuffer, cap);
    RunAcs(Tight(), s1, Answers(acs[..i]));
    DeliversFront(Tight(), s1.acs, s1.acsBuffer, acs, i);
    var s2 := Run(Tight(), s1, By(Acs, Answers(acs[..i])));
    RunAcs(Tight(), s2, [4]);
    SizesFor(Tight(), s2.acs, s2.acsBuffer, acs, i);
    var s3 := Run(Tight(), s2, By(Acs, [4]));
    RunFtc(Tight(), s3, [|ftc[0]|]);
    AloneOne(Tight(), s3.ftc, s3.acsBuffer, |ftc[0]|);
    StaleBreaks(Tight(), s3.ftc, s3.acsBuffer, |ftc[0]|);
    RunFour(Tight(), s0, By(Ftc, [4]), By(Acs, Answers(acs[..i])), By(Acs, [4]), By(Ftc, [|ftc[0]|]));
  }

  lemma StaleBreaks(growth: Growth, c: Channel, buffer: Buffer, answer: int)
    requires c.Fits(buffer) && c.reader.ReadBody? && c.reader.place != buffer.place
    requires answer > 0 && c.pos < |c.stream|
    ensures Advance(growth, c, buffer, answer).0.reader == Broken
  {
  }

  // ----- the two threads exchanged -----

  function Swapped(s: System): System {
    System(s.ams, s.ftc, s.acs, s.amsBuffer, s.acsBuffer)
  }

  function SwappedActions(schedule: seq<Action>): (r: seq<Action>)
    ensures |r| == |schedule|
  {
    seq(|schedule|, i requires 0 <= i < |schedule| => SwappedAction(schedule[i]))
  }

  function SwappedAction(a: Action): Action {
    Action(match a.thread case Ams => Ams case Acs => Ftc case Ftc => Acs, a.answer)
  }

  lemma {:induction false} RunSwapped(growth: Growth, s: System, schedule: seq<Action>)
    requires s.Fits()
    ensures Swapped(s).Fits()
    ensures Run(growth, Swapped(s), SwappedActions(schedule)) == Swapped(Run(growth, s, schedule))
    decreases |schedule|
  {
    hide Advance;
    if schedule == [] {
    } else {
      var front := schedule[..|schedule| - 1];
      RunSwapped(growth, s, front);
      var swapped := SwappedActions(schedule);
      assert swapped[..|swapped| - 1] == SwappedActions(front);
      assert swapped[|swapped| - 1] == SwappedAction(schedule[|schedule| - 1]);
      hide SwappedActions;
    }
  }

  // ----- exactly when -----

  ghost predicate BothDeliver(s: System, acs: seq<Message>, ftc: seq<Message>) {
    DeliversInOrder(s.acs, acs) && DeliversInOrder(s.ftc, ftc)
  }

  /** Every interleaving, whatever the library does to grow a vector, is right for both channels. */
  ghost predicate AlwaysDeliver(acs: seq<Message>, ftc: seq<Message>) {
    forall growth: Growth, schedule: seq<Action> ::
      BothDeliver(Run(growth, Start([], Packets(acs), Packets(ftc)), schedule), acs, ftc)
  }

  /** The first message of a list that does not fit. */
  function FirstLong(ms: seq<Message>, cap: nat): (i: nat)
    requires exists k :: 0 <= k < |ms| && |ms[k]| > cap
    ensures i < |ms| && |ms[i]| > cap && forall k :: 0 <= k < i ==> |ms[k]| <= cap
  {
    if |ms[0]| > cap then 0 else
      assert forall k :: 0 < k < |ms| ==> ms[1..][k - 1] == ms[k];
      1 + FirstLong(ms[1..], cap)
  }

  lemma LongSpoils(acs: seq<Message>, ftc: seq<Message>)
    requires AllSendable(acs) && AllSendable(ftc) && !Fitting(acs, ftc)
    ensures exists schedule :: Run(Tight(), Start([], Packets(acs), Packets(ftc)), schedule).ftc.reader == Broken
  {
    var cap := Max(BUFFER_SIZE, |ftc[0]|);
    var i := FirstLong(acs, cap);
    LongMoves(acs, ftc, i);
    hide Run, Packets, ListMove;
  }

  lemma NotAlways(growth: Growth, acs: seq<Message>, ftc: seq<Message>, schedule: seq<Action>)
    requires !BothDeliver(Run(growth, Start([], Packets(acs), Packets(ftc)), schedule), acs, ftc)
    ensures !AlwaysDeliver(acs, ftc)
  {
    hide Run, BothDeliver, Packets;
  }

  lemma UnfittingSpoils(acs: seq<Message>, ftc: seq<Message>)
    requires AllSendable(acs) && AllSendable(ftc) && (!Fitting(acs, ftc) || !Fitting(ftc, acs))
    ensures !AlwaysDeliver(acs, ftc)
  {
    hide Run, Packets, Fitting, AlwaysDeliver;
    var s := Start([], Packets(acs), Packets(ftc));
    if !Fitting(acs, ftc) {
      LongSpoils(acs, ftc);
      var schedule :| Run(Tight(), s, schedule).ftc.reader == Broken;
      NotAlways(Tight(), acs, ftc, schedule);
    } else {
      LongSpoils(ftc, acs);
      var t := Start([], Packets(ftc), Packets(acs));
      var schedule :| Run(Tight(), t, schedule).ftc.reader == Broken;
      RunSwapped(Tight(), t, schedule);
      assert Swapped(t) == s;
      NotAlways(Tight(), acs, ftc, SwappedActions(schedule));
    }
  }

  /**
   The shared buffer, for any two lists of messages: every interleaving, for every way the library grows a vector,
   delivers both lists right exactly when one is empty, or any two messages agree on their common front and none
   is longer than a new buffer and the other channel's first message.
   */
  lemma ListsSafeIffHarmonious(acs: seq<Message>, ftc: seq<Message>)
    requires AllSendable(acs) && AllSendable(ftc)
    ensures AlwaysDeliver(acs, ftc) <==> Harmonious(acs, ftc)
  {
    hide Run, Packets;
    if Harmonious(acs, ftc) {
      forall growth: Growth, schedule: seq<Action>
        ensures BothDeliver(Run(growth, Start([], Packets(acs), Packets(ftc)), schedule), acs, ftc)
      {
        HarmoniousRuns(growth, acs, ftc, schedule);
        var t := Run(growth, Start([], Packets(acs), Packets(ftc)), schedule);
        ReadsAtDelivers(t.acs, t.acsBuffer, acs, |t.acs.delivered|);
        ReadsAtDelivers(t.ftc, t.acsBuffer, ftc, |t.ftc.delivered|);
      }
    } else if !AllAgree(acs, ftc) {
      var i, j :| 0 <= i < |acs| && 0 <= j < |ftc| && !Agree(acs[i], ftc[j]);
      ClashSpoils(Tight(), acs, ftc, i, j);
      NotAlways(Tight(), acs, ftc, ListClash(acs, ftc, i, j));
    } else {
      UnfittingSpoils(acs, ftc);
    }
  }
}
