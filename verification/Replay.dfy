/**
 Record and replay joined: the receiver logs what it is sent, the emulator replays the log.  For every run of
 messages, what the emulator then sends and how far it gets is said exactly.
 */
module Replay {
  import opened Wrappers
  import opened Sequences
  import opened DisplayProtocol
  import opened LogStructs
  import opened LogDecode
  import opened LogRoundTrip
  import opened LogEvents
  import opened LogDocuments
  import opened LogFile
  import opened ProfileLog
  import opened DisplayReceiver
  import opened DisplayEmulator

  function Fresh(): State {
    State(map[], 0, [], [], Tally(0, 0, 0, 0, 0, 0, 0))
  }

  // ----- the log as the emulator reads it -----

  function ParsedOf(d: Doc): Parsed
    requires Fits(d)
  {
    if Readable(d) then
      Parsed(GetEventCode(EV_NAMES[d.meta.kind]), if IsSendEvent(d.meta.kind) then Receiving else Sending, PayloadOf(d))
    else Exception
  }

  /** Documents as the logger writes them, their numbers within a C int. */
  ghost predicate Loggable(docs: seq<Doc>) {
    forall i :: 0 <= i < |docs| ==> Fits(docs[i]) && SmallMeta(docs[i].meta)
  }

  ghost function ParsedAll(docs: seq<Doc>): seq<Parsed>
    requires Loggable(docs)
  {
    if docs == [] then [] else [ParsedOf(docs[0])] + ParsedAll(docs[1..])
  }

  lemma {:induction false} DecodesAll(docs: seq<Doc>)
    requires Loggable(docs)
    ensures DecodeAll(Trees(docs)) == ParsedAll(docs)
  {
    if docs == [] {
    } else {
      DecodesAll(docs[1..]);
      DocumentBack(docs[0]);
      hide DecodeNode, DocTree, Readable, PayloadOf, GetEventCode;
      Cons(DocTree(docs[0]), Trees(docs[1..]));
    }
  }

  lemma {:induction false} ParsedConcat(a: seq<Doc>, b: seq<Doc>)
    requires Loggable(a) && Loggable(b)
    ensures Loggable(a + b) && ParsedAll(a + b) == ParsedAll(a) + ParsedAll(b)
    ensures |ParsedAll(a)| == |a|
  {
    hide ParsedOf, Fits, SmallMeta;
    if a == [] {
      assert a + b == b;
    } else {
      ParsedConcat(a[1..], b);
      HeadTail(a, b);
      Assoc([ParsedOf(a[0])], ParsedAll(a[1..]), ParsedAll(b));
    }
  }

  // ----- the documents of one message -----

  /** No read that the worker makes fails, and every reply goes out. */
  predicate Delivered(a: Arrival) {
    && a.sent && a.now < MAX_I64 && a.ackNow < MAX_I64
    && (a.ev.kind == CREATE_BUFFER && a.ev.size == CREATE_SIZE ==>
          a.info.Some? && a.handle.Some? && (FdsAccepted(a.handle.value) ==> a.fds.Some?))
    && (a.ev.kind == REMOVE_BUFFER ==> a.info.Some?)
    && (a.ev.kind == DISPLAY_REQ && Rest(a.ev) >= SIZEOF_BUFFER_INFO ==>
          a.info.Some? && (WithControl(a.ev) ==> a.ctrl.Some?))
  }

  /** The body the first document of a delivered message is logged with. */
  function FirstBody(a: Arrival): Body
    requires Delivered(a)
  {
    if a.ev.kind == CREATE_BUFFER then
      if a.ev.size != CREATE_SIZE then BufferBody(a.ev, None, None, None)
      else if !FdsAccepted(a.handle.value) then BufferBody(a.ev, a.info, None, None)
      else BufferBody(a.ev, a.info, Some(Kept(a.handle.value, a.fds.value)), None)
    else if a.ev.kind == REMOVE_BUFFER then BufferBody(a.ev, a.info, None, None)
    else if a.ev.kind == DISPLAY_REQ then
      if Rest(a.ev) < SIZEOF_BUFFER_INFO then BufferBody(a.ev, None, None, None)
      else BufferBody(a.ev, a.info, None, if WithControl(a.ev) then a.ctrl else None)
    else HeaderBody(a.ev)
  }

  /** The body of the document of its reply, if it is given one. */
  function ReplyBody(cfg: Config, s: State, a: Arrival): Option<Body>
    requires Delivered(a)
  {
    if a.ev.kind == DISPINFO_REQ && Accepts(cfg, a.ev) then Some(InfoReply(cfg))
    else if a.ev.kind == DISPPORT_REQ then Some(PortReply(cfg))
    else if a.ev.kind == DISPLAY_REQ && Rest(a.ev) >= SIZEOF_BUFFER_INFO && a.info.value in s.handles then
      Some(DisplayReply(a.info.value))
    else None
  }

  function ReplyKind(a: Arrival): LogEvent {
    if a.ev.kind == DISPINFO_REQ then EVENT_DISPINFO_REQ_ACK
    else if a.ev.kind == DISPPORT_REQ then EVENT_DISPPORT_REQ_ACK
    else EVENT_DISPLAY_REQ_ACK
  }

  function FirstDoc(s: State, a: Arrival): Doc
    requires Delivered(a)
  {
    var t := TranslateEvType(a.ev.kind);
    Doc(Meta(|s.docs|, t, a.now, Counted(s.counts, t)), FirstBody(a))
  }

  function ReplyDoc(cfg: Config, s: State, a: Arrival): Doc
    requires Delivered(a) && ReplyBody(cfg, s, a).Some?
  {
    Doc(Meta(|s.docs| + 1, ReplyKind(a), a.ackNow, Counted(s.counts, TranslateEvType(a.ev.kind))),
        ReplyBody(cfg, s, a).value)
  }

  function NewDocs(cfg: Config, s: State, a: Arrival): seq<Doc>
    requires Delivered(a)
  {
    [FirstDoc(s, a)] + (if ReplyBody(cfg, s, a).Some? then [ReplyDoc(cfg, s, a)] else [])
  }

  lemma DocsOfMessage(cfg: Config, s: State, a: Arrival)
    requires Delivered(a)
    ensures AfterMessage(cfg, s, a).docs == s.docs + NewDocs(cfg, s, a)
    ensures AfterMessage(cfg, s, a).counts == Counted(s.counts, TranslateEvType(a.ev.kind))
  {
    hide Kept, Accepts, Counted, InfoReply, PortReply, Rest;
  }

  lemma NewDocsFit(cfg: Config, s: State, a: Arrival)
    requires Delivered(a)
    ensures Fits(FirstDoc(s, a)) && (ReplyBody(cfg, s, a).Some? ==> Fits(ReplyDoc(cfg, s, a)))
  {
    hide Kept, Accepts, Counted, Rest;
  }

  // ----- replaying one message -----

  /** What replaying a message sends, the buffer objects after it, and whether the replay goes on. */
  datatype Echo = Echo(units: seq<Unit>, boList: map<u64, i32>, through: bool)

  function EchoCreate(e: Emulator, a: Arrival, fd: i32): Echo
    requires Delivered(a) && a.ev.kind == CREATE_BUFFER
  {
    if a.ev.size != CREATE_SIZE || !FdsAccepted(a.handle.value) then Echo([], e.boList, false)
    else
      var handle := Kept(a.handle.value, a.fds.value);
      if !SmallEvent(a.ev) || a.info.value >= MAX_I64 || !SmallGralloc(handle)
          || !Usable(handle.extent) then Echo([], e.boList, false)
      else
        var boList := if a.info.value in e.boList then e.boList else e.boList[a.info.value := fd];
        Echo([DisplayEmulator.Header(e, a.ev), Info(a.info.value), Handle(handle),
            Descriptors([boList[a.info.value]])], boList, true)
  }

  /** The message goes out even if its handle is unknown, but then the replay ends. */
  function EchoRemove(e: Emulator, a: Arrival): Echo
    requires Delivered(a) && a.ev.kind == REMOVE_BUFFER
  {
    if !SmallEvent(a.ev) || a.info.value >= MAX_I64 then Echo([], e.boList, false)
    else Echo([DisplayEmulator.Header(e, a.ev), Info(a.info.value)], e.boList - {a.info.value},
        a.info.value in e.boList)
  }

  /** A request too short for a handle was logged without one: it is replayed as an empty request for handle 0. */
  function EchoDisplay(e: Emulator, a: Arrival): Echo
    requires Delivered(a) && a.ev.kind == DISPLAY_REQ
  {
    var short := Rest(a.ev) < SIZEOF_BUFFER_INFO;
    var ev, remote := if short then NO_EVENT else a.ev, if short then 0 else a.info.value;
    if SmallEvent(ev) && remote < MAX_I64 && !HasControl(ev) && remote in e.boList then
      Echo([DisplayEmulator.Header(e, ev), Info(remote)], e.boList, true)
    else Echo([], e.boList, false)
  }

  function EchoOf(cfg: Config, e: Emulator, a: Arrival, fd: i32): Echo
    requires Delivered(a)
  {
    var kind := a.ev.kind;
    if kind == CREATE_BUFFER then EchoCreate(e, a, fd)
    else if kind == REMOVE_BUFFER then EchoRemove(e, a)
    else if kind == DISPLAY_REQ then EchoDisplay(e, a)
    else if kind == DISPINFO_REQ || kind == DISPPORT_REQ then
      if !SmallEvent(a.ev) then Echo([], e.boList, false)
      else
        Echo([DisplayEmulator.Header(e, a.ev)], e.boList,
             kind == DISPINFO_REQ && (Accepts(cfg, a.ev) ==> cfg.width < MAX_I32 && cfg.height < MAX_I32))
    else Echo([], e.boList, kind == DISPINFO_ACK || kind == DISPLAY_ACK || kind == SETUP_RESOLUTION)
  }

  /** The driver and the content file never fail. */
  ghost predicate NothingFails(outcome: nat -> Outcome) {
    forall i: nat :: outcome(i).alloc.Some? && outcome(i).close && outcome(i).frame
  }

  /** What the replay has come to after some units: the emulator's new state and whether it goes on. */
  ghost predicate Yields(r: Played, e: Emulator, echo: Echo) {
    && r.emu.sent == e.sent + echo.units && r.emu.node == e.node
    && (echo.through ==> r.emu.boList == echo.boList)
    && (r.status == EndOfFile <==> echo.through)
  }

  lemma PlayOne(e: Emulator, p: Parsed, i: nat, outcome: nat -> Outcome)
    ensures Play(e, [p], i, outcome) ==
            (var r := Process(e, p, outcome(i)); if r.status == Ok then Played(r.emu, EndOfFile) else r)
  {
    hide Process;
    assert [p][1..] == [];
  }

  lemma PlayTwo(e: Emulator, p: Parsed, q: Parsed, i: nat, outcome: nat -> Outcome)
    requires q == Exception || (q.way == Receiving && q.payload == AckPayload)
    ensures Play(e, [p] + [q], i, outcome) ==
            (var r := Process(e, p, outcome(i));
             if r.status != Ok then r
             else if q == Exception then Played(r.emu, YmlParserErr)
             else Played(r.emu, if Awaited(q.code) then EndOfFile else BadMetadata))
  {
    PlayConcat(e, [p], [q], i, outcome);
    PlayOne(e, p, i, outcome);
    var r := Process(e, p, outcome(i));
    ProcessNotEnd(e, p, outcome(i));
    PlayOne(r.emu, q, i + 1, outcome);
  }

  /** One document's part of an echo. */
  ghost predicate Does(r: Played, e: Emulator, echo: Echo) {
    && r.emu.sent == e.sent + echo.units && r.emu.node == e.node
    && (echo.through ==> r.emu.boList == echo.boList)
    && (r.status == Ok <==> echo.through)
  }

  lemma CreateProcessed(s: State, a: Arrival, e: Emulator, o: Outcome)
    requires Delivered(a) && a.ev.kind == CREATE_BUFFER && Fits(FirstDoc(s, a)) && o.alloc.Some?
    ensures Does(Process(e, ParsedOf(FirstDoc(s, a)), o), e, EchoCreate(e, a, o.alloc.value))
  {
    hide Kept, SmallGralloc, SmallEvent, FdsAccepted, Counted;
  }

  lemma RemoveProcessed(s: State, a: Arrival, e: Emulator, o: Outcome)
    requires Delivered(a) && a.ev.kind == REMOVE_BUFFER && Fits(FirstDoc(s, a)) && o.close
    ensures Does(Process(e, ParsedOf(FirstDoc(s, a)), o), e, EchoRemove(e, a))
  {
    hide SmallEvent, Counted;
  }

  lemma DisplayProcessed(s: State, a: Arrival, e: Emulator, o: Outcome)
    requires Delivered(a) && a.ev.kind == DISPLAY_REQ && Fits(FirstDoc(s, a)) && o.frame
    ensures Does(Process(e, ParsedOf(FirstDoc(s, a)), o), e, EchoDisplay(e, a))
  {
    hide Counted, Rest;
  }

  lemma HeaderProcessed(s: State, a: Arrival, e: Emulator, o: Outcome)
    requires Delivered(a) && a.ev.kind !in {CREATE_BUFFER, REMOVE_BUFFER, DISPLAY_REQ} && Fits(FirstDoc(s, a))
    ensures var kind, r := a.ev.kind, Process(e, ParsedOf(FirstDoc(s, a)), o);
            if kind == DISPINFO_REQ || kind == DISPPORT_REQ then
              Does(r, e, Echo(if SmallEvent(a.ev) then [DisplayEmulator.Header(e, a.ev)]
                  else [], e.boList, SmallEvent(a.ev)))
            else Does(r, e, Echo([], e.boList, kind == DISPINFO_ACK || kind == DISPLAY_ACK || kind == SETUP_RESOLUTION))
  {
    hide Counted, SmallEvent;
    assert e.sent + [] == e.sent;
  }

  /** The document of a reply is read over, unless it is a port reply or out of range. */
  lemma ReplyParsed(cfg: Config, s: State, a: Arrival)
    requires Delivered(a) && ReplyBody(cfg, s, a).Some? && Fits(ReplyDoc(cfg, s, a))
    ensures var q := ParsedOf(ReplyDoc(cfg, s, a));
            && (q == Exception || (q.way == Receiving && q.payload == AckPayload))
            && ((q.Parsed? && Awaited(q.code)) <==>
                  match ReplyKind(a)
                  case 7 => cfg.width < MAX_I32 && cfg.height < MAX_I32
                  case 6 => a.info.value < MAX_I64
                  case _ => false)
  {
    hide Counted, Accepts, Rest;
  }

  /** One message, recorded and replayed: the units of its echo, and the replay goes on exactly if the echo says so. */
  lemma MessageReplayed(cfg: Config, s: State, a: Arrival, e: Emulator, i: nat, outcome: nat -> Outcome)
    requires Delivered(a) && NothingFails(outcome) && Loggable(NewDocs(cfg, s, a))
    ensures Yields(Play(e, ParsedAll(NewDocs(cfg, s, a)), i, outcome), e, EchoOf(cfg, e, a, outcome(i).alloc.value))
  {
    hide FirstBody, ParsedOf, Process, Accepts, EchoCreate, EchoRemove, Rest, SmallEvent, Fits, SmallMeta;
    NewDocsFit(cfg, s, a);
    var docs := NewDocs(cfg, s, a);
    assert docs[0] == FirstDoc(s, a);
    if a.ev.kind == CREATE_BUFFER {
      CreateProcessed(s, a, e, outcome(i));
    } else if a.ev.kind == REMOVE_BUFFER {
      RemoveProcessed(s, a, e, outcome(i));
    } else if a.ev.kind == DISPLAY_REQ {
      DisplayProcessed(s, a, e, outcome(i));
    } else {
      HeaderProcessed(s, a, e, outcome(i));
    }
    var p := ParsedOf(FirstDoc(s, a));
    ProcessNotEnd(e, p, outcome(i));
    if ReplyBody(cfg, s, a).Some? {
      ReplyParsed(cfg, s, a);
      var q := ParsedOf(ReplyDoc(cfg, s, a));
      assert docs[1] == ReplyDoc(cfg, s, a);
      TwoParsed(FirstDoc(s, a), ReplyDoc(cfg, s, a));
      PlayTwo(e, p, q, i, outcome);
    } else {
      OneParsed(FirstDoc(s, a));
      assert docs == [FirstDoc(s, a)];
      PlayOne(e, p, i, outcome);
    }
  }

  lemma OneParsed(d: Doc)
    requires Fits(d) && SmallMeta(d.meta)
    ensures Loggable([d]) && Loggable([d] + []) && ParsedAll([d]) == [ParsedOf(d)] && [d] + [] == [d]
  {
    hide ParsedOf, Fits, SmallMeta;
    assert [d][1..] == [];
  }

  lemma TwoParsed(d: Doc, f: Doc)
    requires Fits(d) && SmallMeta(d.meta) && Fits(f) && SmallMeta(f.meta)
    ensures Loggable([d] + [f]) && ParsedAll([d] + [f]) == [ParsedOf(d)] + [ParsedOf(f)]
  {
    OneParsed(d);
    OneParsed(f);
    ParsedConcat([d], [f]);
  }
}
