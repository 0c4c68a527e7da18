/**
 Emulator, socket and receiver together: the messages in flight, applied to the receiver's handles, give the
 emulator's buffer objects, in every reachable state.
 */
module TwoEnded {
  import opened Wrappers
  import opened Sequences
  import opened DisplayProtocol
  import opened LogStructs
  import opened LogDocuments
  import opened ProfileLog
  import opened DisplayReceiver
  import opened DisplayEmulator
  import opened Recording
  import opened Replay
  import FrameLifecycle

  // ----- the receiver's reads -----

  /** What the kernel adds to a delivery: the descriptors as the receiver gets them, the reply's fate, the time. */
  datatype Delivery = Delivery(fds: Fds, sent: bool, now: nat, ackNow: nat)

  /** Reading one message off the socket: done, waiting for more, or out of step with the sender. */
  datatype Taken = Blocked | Garbled | Taken(a: Arrival, rest: seq<Unit>)

  function Empty(ev: DisplayEvent, d: Delivery): Arrival {
    Arrival(ev, None, None, None, None, d.sent, d.now, d.ackNow)
  }

  function TakeCreate(ev: DisplayEvent, q: seq<Unit>, d: Delivery): Taken {
    if |q| < 2 then Blocked
    else if !q[0].Info? || !q[1].Handle? then Garbled
    else
      var a := Empty(ev, d).(info := Some(q[0].remote), handle := Some(q[1].handle));
      if !FdsAccepted(q[1].handle) then Taken(a, q[2..])
      else if |q| < 3 then Blocked
      else if !q[2].Descriptors? then Garbled
      else Taken(a.(fds := Some(d.fds)), q[3..])
  }

  function TakeInfo(ev: DisplayEvent, q: seq<Unit>, d: Delivery): Taken {
    if q == [] then Blocked
    else if !q[0].Info? then Garbled
    else Taken(Empty(ev, d).(info := Some(q[0].remote)), q[1..])
  }

  function TakeDisplay(ev: DisplayEvent, q: seq<Unit>, d: Delivery): Taken {
    if Rest(ev) < SIZEOF_BUFFER_INFO then Taken(Empty(ev, d), q)
    else if !WithControl(ev) then TakeInfo(ev, q, d)
    else if |q| < 2 then Blocked
    else if !q[0].Info? || !q[1].Controls? then Garbled
    else Taken(Empty(ev, d).(info := Some(q[0].remote), ctrl := Some(q[1].ctrl)), q[2..])
  }

  /** The reads the worker makes for the header at the front of the queue. */
  function Take(q: seq<Unit>, d: Delivery): Taken {
    if q == [] then Blocked
    else if !q[0].Header? then Garbled
    else
      var ev := q[0].ev;
      if ev.kind == CREATE_BUFFER && ev.size == CREATE_SIZE then TakeCreate(ev, q[1..], d)
      else if ev.kind == REMOVE_BUFFER then TakeInfo(ev, q[1..], d)
      else if ev.kind == DISPLAY_REQ then TakeDisplay(ev, q[1..], d)
      else Taken(Empty(ev, d), q[1..])
  }

  lemma TakeShrinks(q: seq<Unit>, d: Delivery)
    ensures Take(q, d).Taken? ==> |Take(q, d).rest| < |q|
  {
  }

  /** A whole message at the front is taken the same whatever follows. */
  lemma TakeMore(q: seq<Unit>, more: seq<Unit>, d: Delivery)
    requires Take(q, d).Taken?
    ensures Take(q + more, d) == Taken(Take(q, d).a, Take(q, d).rest + more)
  {
    HeadTail(q, more);
    var t := q[1..];
    hide Rest;
    assert t + more == (t + more)[..|t|] + more;
    if |t| >= 1 {
      HeadTail(t, more);
      var u := t[1..];
      assert t[1..] + more == (t + more)[1..];
      if |u| >= 1 {
        assert t[2..] + more == (t + more)[2..];
        if |u| >= 2 {
          assert t[3..] + more == (t + more)[3..];
        }
      }
    }
  }

  /** What a message does to the receiver's keys. */
  function KeysAfter(keys: set<u64>, a: Arrival): set<u64> {
    if a.ev.kind == CREATE_BUFFER && a.ev.size == CREATE_SIZE && CreateCompletes(a) then keys + {a.info.value}
    else if a.ev.kind == REMOVE_BUFFER && a.info.Some? then keys - {a.info.value}
    else keys
  }

  lemma KeysAfterMessage(cfg: Config, s: State, a: Arrival)
    ensures AfterMessage(cfg, s, a).handles.Keys == KeysAfter(s.handles.Keys, a)
  {
    hide Kept, Accepts, Counted, Rest;
  }

  const ANY := Delivery([0, 0, 0, 0], true, 0, 0)

  /** The receiver's keys once everything in flight is delivered; None if some of it cannot be. */
  function PendingKeys(keys: set<u64>, q: seq<Unit>): Option<set<u64>>
    decreases |q|
  {
    if q == [] then Some(keys)
    else
      var t := Take(q, ANY);
      if !t.Taken? then None
      else
        TakeShrinks(q, ANY);
        PendingKeys(KeysAfter(keys, t.a), t.rest)
  }

  /** The kernel's part of a delivery does not matter to the keys. */
  lemma AnyDelivery(keys: set<u64>, q: seq<Unit>, d: Delivery)
    ensures Take(q, d).Taken? <==> Take(q, ANY).Taken?
    ensures Take(q, d).Taken? ==>
              && Take(q, d).rest == Take(q, ANY).rest
              && KeysAfter(keys, Take(q, d).a) == KeysAfter(keys, Take(q, ANY).a)
  {
    hide Rest, FdsAccepted;
  }

  lemma {:induction false} PendingMore(keys: set<u64>, q: seq<Unit>, more: seq<Unit>)
    requires PendingKeys(keys, q).Some?
    ensures PendingKeys(keys, q + more) == PendingKeys(PendingKeys(keys, q).value, more)
    decreases |q|
  {
    if q == [] {
      assert q + more == more;
    } else {
      var t := Take(q, ANY);
      TakeShrinks(q, ANY);
      TakeMore(q, more, ANY);
      hide Take;
      PendingMore(KeysAfter(keys, t.a), t.rest, more);
    }
  }

  // ----- one entry of the emulator -----

  /** The entry's header has the type its name says. */
  predicate Named(p: Parsed) {
    p.Parsed? && p.way == Sending ==>
      match p.payload
      case EventPayload(ev) => ev.kind == DISPINFO_REQ || ev.kind == DISPPORT_REQ
      case CreatePayload(ev, _, _) => ev.kind == CREATE_BUFFER
      case BufferPayload(ev, _, _) => ev.kind == if p.code == REMOVE_BUFFER then REMOVE_BUFFER else DISPLAY_REQ
      case _ => true
  }

  /** The header's size matches what the emulator sends after it, and the handle announces 1 to 4 descriptors. */
  predicate WellSized(p: Parsed) {
    p.Parsed? && p.way == Sending ==>
      match p.payload
      case CreatePayload(ev, _, handle) => ev.size == CREATE_SIZE && FdsAccepted(handle)
      case BufferPayload(ev, _, _) => p.code == REMOVE_BUFFER || Rest(ev) >= SIZEOF_BUFFER_INFO
      case _ => true
  }

  /** The receiver, going by the type and size in the header, reads exactly what the emulator sends after it. */
  predicate Matched(p: Parsed) {
    p.Parsed? && p.way == Sending ==>
      match p.payload
      case EventPayload(ev) =>
        && !(ev.kind == CREATE_BUFFER && ev.size == CREATE_SIZE) && ev.kind != REMOVE_BUFFER
        && !(ev.kind == DISPLAY_REQ && Rest(ev) >= SIZEOF_BUFFER_INFO)
      case CreatePayload(ev, _, handle) => ev.kind == CREATE_BUFFER && ev.size == CREATE_SIZE && FdsAccepted(handle)
      case BufferPayload(ev, _, _) =>
        if p.code != REMOVE_BUFFER && HasControl(ev) then ev.kind == DISPLAY_REQ
        else
          || ev.kind == REMOVE_BUFFER
          || (ev.kind == DISPLAY_REQ && Rest(ev) >= SIZEOF_BUFFER_INFO && !HasControl(ev))
      case _ => true
  }

  lemma NamedIsMatched(p: Parsed)
    requires Named(p) && WellSized(p)
    ensures Matched(p)
  {
  }

  /** What handling one entry puts on the socket. */
  function Written(e: Emulator, p: Parsed, o: Outcome): (u: seq<Unit>)
    ensures Process(e, p, o).emu.sent == e.sent + u
  {
    assert Process(e, p, o).emu.sent[..|e.sent|] == e.sent;
    Process(e, p, o).emu.sent[|e.sent|..]
  }

  lemma WrittenIs(e: Emulator, p: Parsed, o: Outcome, u: seq<Unit>)
    requires Process(e, p, o).emu.sent == e.sent + u
    ensures Written(e, p, o) == u
  {
    hide Process;
  }

  /** The control part is read exactly when it is sent. */
  lemma ControlsAgree(ev: DisplayEvent, node: u32)
    ensures HasControl(ev) <==> WithControl(ev.(renderNode := node))
  {
  }

  /**
   What an entry of any document sends, if anything, is read to its end, no more and no less, exactly when the
   header's type and size match the payload.
   */
  lemma ReadWholeIffMatched(e: Emulator, p: Parsed, o: Outcome)
    requires Written(e, p, o) != []
    ensures (Take(Written(e, p, o), ANY).Taken? && Take(Written(e, p, o), ANY).rest == []) <==> Matched(p)
  {
    hide Rest, FdsAccepted, HasControl, WithControl, Usable;
    assert p.Parsed? && p.way == Sending;
    match p.payload {
      case EventPayload(ev) =>
        RestOfHeader(ev, e.node);
        WrittenIs(e, p, o, [DisplayEmulator.Header(e, ev)]);
      case CreatePayload(ev, remote, handle) =>
        var r := Process(e, p, o);
        WrittenIs(e, p, o, [DisplayEmulator.Header(e, ev), Info(remote), Handle(handle),
            Descriptors([r.emu.boList[remote]])]);
      case BufferPayload(ev, remote, ctrl) =>
        ControlsAgree(ev, e.node);
        RestOfHeader(ev, e.node);
        if p.code != REMOVE_BUFFER && HasControl(ev) {
          ControlHasRoom(ev);
          WrittenIs(e, p, o, [DisplayEmulator.Header(e, ev), Info(remote)] + [Controls(ctrl.value)]);
        } else {
          WrittenIs(e, p, o, [DisplayEmulator.Header(e, ev), Info(remote)]);
        }
      case _ =>
    }
  }

  lemma RestOfHeader(ev: DisplayEvent, node: u32)
    ensures Rest(ev.(renderNode := node)) == Rest(ev)
  {
  }

  lemma ControlHasRoom(ev: DisplayEvent)
    ensures HasControl(ev) ==> Rest(ev) >= SIZEOF_BUFFER_INFO
  {
  }

  /** A REMOVE whose GEM_CLOSE fails: the emulator has sent it but keeps the buffer object, and ends. */
  predicate CloseFails(e: Emulator, p: Parsed, o: Outcome) {
    && p.Parsed? && p.way == Sending && p.payload.BufferPayload? && p.code == REMOVE_BUFFER
    && p.payload.remote in e.boList && !o.close
  }

  /** The keys of what one entry sends are what it does to the emulator's own, but for a failed GEM_CLOSE. */
  lemma EntryKeys(e: Emulator, p: Parsed, o: Outcome)
    requires Named(p) && WellSized(p)
    ensures PendingKeys(e.boList.Keys, Written(e, p, o))
         == Some(Process(e, p, o).emu.boList.Keys - if CloseFails(e, p, o) then {p.payload.remote} else {})
    ensures CloseFails(e, p, o) ==> Process(e, p, o).status != Ok && Process(e, p, o).emu.boList == e.boList
  {
    var r, u := Process(e, p, o), Written(e, p, o);
    var keys := e.boList.Keys;
    assert r.emu.boList.Keys - {} == r.emu.boList.Keys;
    if u == [] {
      assert r.emu.boList == e.boList && keys - {} == keys;
    } else {
      NamedIsMatched(p);
      ReadWholeIffMatched(e, p, o);
      PendingOne(keys, u);
      hide PendingKeys;
      SentKeys(e, p, o);
    }
  }

  /** What one entry that sends does to the receiver's keys and to the emulator's. */
  lemma SentKeys(e: Emulator, p: Parsed, o: Outcome)
    requires Named(p) && WellSized(p) && Written(e, p, o) != [] && Take(Written(e, p, o), ANY).Taken?
    ensures KeysAfter(e.boList.Keys, Take(Written(e, p, o), ANY).a)
         == Process(e, p, o).emu.boList.Keys - if CloseFails(e, p, o) then {p.payload.remote} else {}
    ensures CloseFails(e, p, o) ==> Process(e, p, o).status != Ok && Process(e, p, o).emu.boList == e.boList
  {
    var r, keys := Process(e, p, o), e.boList.Keys;
    assert r.emu.boList.Keys - {} == r.emu.boList.Keys;
    assert p.Parsed? && p.way == Sending;
    hide Rest, FdsAccepted, HasControl, WithControl, Usable;
    match p.payload {
      case EventPayload(ev) =>
        WrittenIs(e, p, o, [DisplayEmulator.Header(e, ev)]);
      case CreatePayload(ev, remote, handle) =>
        CreateKeys(e, p, o);
      case BufferPayload(ev, remote, ctrl) =>
        if p.code == REMOVE_BUFFER {
          WrittenIs(e, p, o, [DisplayEmulator.Header(e, ev), Info(remote)]);
          assert r.emu.boList.Keys - (if CloseFails(e, p, o) then {remote} else {}) == keys - {remote};
        } else {
          DisplayKeys(e, p, o);
        }
      case _ =>
    }
  }

  lemma CreateKeys(e: Emulator, p: Parsed, o: Outcome)
    requires Named(p) && WellSized(p) && p.Parsed? && p.way == Sending && p.payload.CreatePayload?
    requires Written(e, p, o) != [] && Take(Written(e, p, o), ANY).Taken?
    ensures KeysAfter(e.boList.Keys, Take(Written(e, p, o), ANY).a) == Process(e, p, o).emu.boList.Keys
  {
    hide FdsAccepted, Usable;
    var r, ev, remote := Process(e, p, o), p.payload.ev, p.payload.remote;
    WrittenIs(e, p, o, [DisplayEmulator.Header(e, ev), Info(remote), Handle(p.payload.handle),
        Descriptors([r.emu.boList[remote]])]);
    assert r.emu.boList.Keys == e.boList.Keys + {remote};
  }

  lemma PendingOne(keys: set<u64>, u: seq<Unit>)
    requires u != [] && Take(u, ANY).Taken? && Take(u, ANY).rest == []
    ensures PendingKeys(keys, u) == Some(KeysAfter(keys, Take(u, ANY).a))
  {
    hide Take, KeysAfter;
  }

  lemma DisplayKeys(e: Emulator, p: Parsed, o: Outcome)
    requires Named(p) && p.Parsed? && p.way == Sending && p.payload.BufferPayload? && p.code != REMOVE_BUFFER
    requires Written(e, p, o) != [] && Take(Written(e, p, o), ANY).Taken?
    ensures KeysAfter(e.boList.Keys, Take(Written(e, p, o), ANY).a) == e.boList.Keys
              && Process(e, p, o).emu.boList == e.boList
  {
    hide Rest, HasControl, WithControl;
    var ev, remote := p.payload.ev, p.payload.remote;
    if HasControl(ev) {
      WrittenIs(e, p, o, [DisplayEmulator.Header(e, ev), Info(remote)] + [Controls(p.payload.ctrl.value)]);
    } else {
      WrittenIs(e, p, o, [DisplayEmulator.Header(e, ev), Info(remote)]);
    }
  }

  // ----- the documents of a log -----

  /** What the worker's own steps make sure of in every document it logs. */
  predicate LoggedDoc(d: Doc) {
    && Fits(d)
    && (1 <= d.meta.kind < SEND_EVENTS_START ==> TranslateEvType(d.body.ev.kind) == d.meta.kind)
    && (d.meta.kind == EVENT_CREATE_BUFFER && d.body.handle.Some? ==>
          d.body.ev.size == CREATE_SIZE && FdsAccepted(d.body.handle.value))
    && (d.meta.kind == EVENT_DISPLAY_REQ && d.body.info.Some? ==> Rest(d.body.ev) >= SIZEOF_BUFFER_INFO)
  }

  ghost predicate LoggedDocs(docs: seq<Doc>) {
    forall i :: 0 <= i < |docs| ==> LoggedDoc(docs[i])
  }

  /** A message adds only such documents, whatever its reads give. */
  lemma MessageLogs(cfg: Config, s: State, a: Arrival)
    requires LoggedDocs(s.docs)
    ensures LoggedDocs(AfterMessage(cfg, s, a).docs)
  {
    hide Kept, Accepts, Counted, Rest;
    if a.ev.kind == CREATE_BUFFER && CreateCompletes(a) {
      KeptFds(a.handle.value, a.fds.value);
    }
  }

  lemma KeptFds(h: Gralloc, fds: Fds)
    requires FdsAccepted(h)
    ensures FdsAccepted(Kept(h, fds))
  {
  }

  lemma HappeningLogs(cfg: Config, x: Session, h: Happening)
    requires LoggedDocs(x.s.docs)
    ensures LoggedDocs(After(cfg, x, h).s.docs)
  {
    hide AfterMessage, ReleaseCalls, Counted;
    if h.Worker? && h.input.Message? && x.working {
      hide LoggedDocs;
      MessageLogs(cfg, x.s, h.input.a);
    }
  }

  /** Every document of any recording is such a one. */
  lemma {:induction false} RecordingLogs(cfg: Config, hs: seq<Happening>)
    ensures LoggedDocs(Recorded(cfg, hs).s.docs)
  {
    if hs == [] {
    } else {
      RecordingLogs(cfg, hs[..|hs| - 1]);
      hide LoggedDocs, After;
      HappeningLogs(cfg, Recorded(cfg, hs[..|hs| - 1]), hs[|hs| - 1]);
    }
  }

  /** A buffer event logged without the handle it is about: its info was not, or could not be, read. */
  predicate InfoMissing(d: Doc)
    requires LoggedDoc(d)
  {
    d.meta.kind in {EVENT_CREATE_BUFFER, EVENT_REMOVE_BUFFER, EVENT_DISPLAY_REQ} && d.body.info.None?
  }

  /** A readable document that makes the emulator send anything is in order exactly when its info was logged. */
  lemma NamedIffInfoLogged(e: Emulator, d: Doc, o: Outcome)
    requires LoggedDoc(d) && Written(e, ParsedOf(d), o) != []
    ensures Named(ParsedOf(d)) && WellSized(ParsedOf(d)) <==> !InfoMissing(d)
    ensures Matched(ParsedOf(d)) <==> !InfoMissing(d)
  {
    var p := ParsedOf(d);
    assert d.meta.kind == EVENT_CREATE_BUFFER && d.body.handle.None? ==> Process(e, p, o).emu == e;
    assert p.Parsed? && p.way == Sending && !p.payload.Nothing? && !p.payload.AckPayload?;
    hide Process, Written, Readable, FdsAccepted;
    ControlHasRoom(NO_EVENT);
    if !InfoMissing(d) {
      SendsAsLogged(d);
    }
  }

  /** With its info logged, what is sent matches: types by name, sizes by the receiver's own checks, no controls. */
  lemma SendsAsLogged(d: Doc)
    requires LoggedDoc(d) && !InfoMissing(d) && 1 <= d.meta.kind < SEND_EVENTS_START && Readable(d)
    requires d.meta.kind == EVENT_CREATE_BUFFER ==> d.body.handle.Some?
    ensures Named(ParsedOf(d)) && WellSized(ParsedOf(d)) && Matched(ParsedOf(d))
  {
    hide FdsAccepted, Rest, Readable;
    NamedIsMatched(ParsedOf(d));
  }

  /** The receiver gets out of step somewhere in the queue. */
  predicate GarbledLater(q: seq<Unit>)
    decreases |q|
  {
    match Take(q, ANY)
    case Garbled => true
    case Blocked => false
    case Taken(_, rest) =>
      TakeShrinks(q, ANY);
      GarbledLater(rest)
  }

  lemma GarbledMore(q: seq<Unit>, more: seq<Unit>, d: Delivery)
    requires Take(q, d).Garbled?
    ensures Take(q + more, d).Garbled?
  {
    var t := q[1..];
    HeadTail(q, more);
    if q[0].Header? {
      GarbledBody(q[0].ev, t, more, d);
    }
    hide TakeCreate, TakeInfo, TakeDisplay;
  }

  lemma GarbledBody(ev: DisplayEvent, t: seq<Unit>, more: seq<Unit>, d: Delivery)
    ensures TakeCreate(ev, t, d).Garbled? ==> TakeCreate(ev, t + more, d).Garbled?
    ensures TakeInfo(ev, t, d).Garbled? ==> TakeInfo(ev, t + more, d).Garbled?
    ensures TakeDisplay(ev, t, d).Garbled? ==> TakeDisplay(ev, t + more, d).Garbled?
  {
    hide Rest, FdsAccepted;
    assert forall i :: 0 <= i < |t| ==> (t + more)[i] == t[i];
  }

  lemma {:induction false} GarbledStays(q: seq<Unit>, more: seq<Unit>)
    requires GarbledLater(q)
    ensures GarbledLater(q + more)
    decreases |q|
  {
    var t := Take(q, ANY);
    if t.Garbled? {
      GarbledMore(q, more, ANY);
    } else {
      TakeShrinks(q, ANY);
      GarbledStays(t.rest, more);
      TakeMore(q, more, ANY);
    }
    hide Take;
  }

  lemma {:induction false} GarbledAfter(keys: set<u64>, q: seq<Unit>, more: seq<Unit>)
    requires PendingKeys(keys, q).Some? && GarbledLater(more)
    ensures GarbledLater(q + more)
    decreases |q|
  {
    if q == [] {
      assert q + more == more;
    } else {
      var t := Take(q, ANY);
      TakeShrinks(q, ANY);
      GarbledAfter(KeysAfter(keys, t.a), t.rest, more);
      TakeMore(q, more, ANY);
      hide Take;
    }
  }

  lemma {:induction false} GarbledHasNoKeys(keys: set<u64>, q: seq<Unit>)
    requires GarbledLater(q)
    ensures PendingKeys(keys, q) == None
    decreases |q|
  {
    var t := Take(q, ANY);
    if t.Taken? {
      TakeShrinks(q, ANY);
      GarbledHasNoKeys(KeysAfter(keys, t.a), t.rest);
    }
    EmptyBlocks(q, ANY);
    hide Take;
  }

  /** What the emulator sends for a document without its info starts with a header of type 0 and goes on with a body. */
  lemma MissingInfoGarbles(e: Emulator, d: Doc, o: Outcome)
    requires LoggedDoc(d) && InfoMissing(d) && Written(e, ParsedOf(d), o) != []
    ensures GarbledLater(Written(e, ParsedOf(d), o))
  {
    var p, u := ParsedOf(d), Written(e, ParsedOf(d), o);
    assert d.meta.kind == EVENT_CREATE_BUFFER ==> Process(e, p, o).emu == e;
    assert p.payload == BufferPayload(NO_EVENT, 0, None) && p.way == Sending;
    WrittenIs(e, p, o, [DisplayEmulator.Header(e, NO_EVENT), Info(0)]);
    assert u[1..] == [Info(0)];
  }

  /** A removal whose info could not be read is sent whatever the emulator holds. */
  lemma MissingRemoveIsSent(e: Emulator, d: Doc, o: Outcome)
    requires LoggedDoc(d) && InfoMissing(d) && d.meta.kind == EVENT_REMOVE_BUFFER
    ensures Written(e, ParsedOf(d), o) == [DisplayEmulator.Header(e, NO_EVENT), Info(0)]
  {
    WrittenIs(e, ParsedOf(d), o, [DisplayEmulator.Header(e, NO_EVENT), Info(0)]);
  }

  // ----- the system -----

  /**
   `orphans` are the keys a failed GEM_CLOSE left with the emulator; `derailed`, that it has sent for a document
   without its info.
   */
  datatype System = System(emu: Emulator, ended: bool, queue: seq<Unit>, s: State, orphans: set<u64>, derailed: bool)

  datatype Move = Entry(doc: Doc, o: Outcome) | Deliver(delivery: Delivery)

  function Connected(node: u32): System {
    System(Emulator(map[], [], node), false, [], Fresh(), {}, false)
  }

  predicate LoggedMove(m: Move) {
    m.Entry? ==> LoggedDoc(m.doc)
  }

  predicate LoggedMoves(moves: seq<Move>) {
    forall i :: 0 <= i < |moves| ==> LoggedMove(moves[i])
  }

  function AfterEntry(x: System, d: Doc, o: Outcome): System
    requires LoggedDoc(d)
  {
    var p := ParsedOf(d);
    var r, u := Process(x.emu, p, o), Written(x.emu, p, o);
    x.(emu := r.emu, ended := r.status != Ok, queue := x.queue + u,
       orphans := if CloseFails(x.emu, p, o) then {p.payload.remote} else {},
       derailed := x.derailed || (u != [] && InfoMissing(d)))
  }

  /** The emulator handles a document of a log, or the receiver one message once it has all of it. */
  function Step(cfg: Config, x: System, m: Move): System
    requires LoggedMove(m)
  {
    match m
    case Entry(d, o) => if x.ended then x else AfterEntry(x, d, o)
    case Deliver(d) =>
      var t := Take(x.queue, d);
      if t.Taken? then x.(queue := t.rest, s := AfterMessage(cfg, x.s, t.a)) else x
  }

  function Run(cfg: Config, node: u32, moves: seq<Move>): System
    requires LoggedMoves(moves)
  {
    if moves == [] then Connected(node)
    else Step(cfg, Run(cfg, node, moves[..|moves| - 1]), moves[|moves| - 1])
  }

  /** What is in flight reads whole and makes the receiver's keys the emulator's. */
  ghost predicate Agree(x: System) {
    && PendingKeys(x.s.handles.Keys, x.queue) == Some(x.emu.boList.Keys - x.orphans)
    && x.orphans <= x.emu.boList.Keys && (x.orphans != {} ==> x.ended)
  }

  ghost predicate Tracks(x: System) {
    if x.derailed then GarbledLater(x.queue) else Agree(x)
  }

  lemma AgreeAfterEntry(x: System, d: Doc, o: Outcome)
    requires Agree(x) && !x.ended && LoggedDoc(d) && !AfterEntry(x, d, o).derailed
    ensures Agree(AfterEntry(x, d, o))
  {
    var p := ParsedOf(d);
    assert x.emu.boList.Keys - {} == x.emu.boList.Keys;
    if Written(x.emu, p, o) == [] {
      SilentEntry(x.emu, p, o);
      assert x.queue + [] == x.queue;
    } else {
      NamedIffInfoLogged(x.emu, d, o);
      EntryKeys(x.emu, p, o);
      PendingMore(x.s.handles.Keys, x.queue, Written(x.emu, p, o));
    }
    hide Process, PendingKeys, Written, ParsedOf;
  }

  /** An entry that sends nothing does nothing to the buffer objects. */
  lemma SilentEntry(e: Emulator, p: Parsed, o: Outcome)
    requires Written(e, p, o) == []
    ensures Process(e, p, o).emu.boList == e.boList && !CloseFails(e, p, o)
  {
    assert Process(e, p, o).emu.sent == e.sent + [];
    assert |Process(e, p, o).emu.sent| == |e.sent|;
  }

  lemma TracksEntry(x: System, d: Doc, o: Outcome)
    requires Tracks(x) && !x.ended && LoggedDoc(d)
    ensures Tracks(AfterEntry(x, d, o))
  {
    hide Agree, Process;
    var u := Written(x.emu, ParsedOf(d), o);
    if x.derailed {
      GarbledStays(x.queue, u);
    } else if AfterEntry(x, d, o).derailed {
      MissingInfoGarbles(x.emu, d, o);
      assert PendingKeys(x.s.handles.Keys, x.queue).Some? by {
        AgreesInFlight(x);
      }
      GarbledAfter(x.s.handles.Keys, x.queue, u);
    } else {
      AgreeAfterEntry(x, d, o);
    }
    hide GarbledLater, Written, ParsedOf;
  }

  lemma AgreesInFlight(x: System)
    requires Agree(x)
    ensures PendingKeys(x.s.handles.Keys, x.queue).Some?
  {
  }

  lemma TracksDelivery(cfg: Config, x: System, d: Delivery)
    requires Tracks(x)
    ensures Tracks(Step(cfg, x, Deliver(d)))
  {
    hide Take, AfterMessage;
    if Take(x.queue, d).Taken? {
      AnyDelivery(x.s.handles.Keys, x.queue, d);
      KeysAfterMessage(cfg, x.s, Take(x.queue, d).a);
      EmptyBlocks(x.queue, d);
    }
  }

  lemma EmptyBlocks(q: seq<Unit>, d: Delivery)
    ensures Take(q, d).Taken? || Take(q, d).Garbled? ==> q != []
  {
  }

  lemma {:induction false} SystemTracks(cfg: Config, node: u32, moves: seq<Move>)
    requires LoggedMoves(moves)
    ensures Tracks(Run(cfg, node, moves))
  {
    if moves == [] {
      var x := Connected(node);
      assert x.s.handles.Keys == {} && x.emu.boList.Keys - x.orphans == {};
    } else {
      var front, m := moves[..|moves| - 1], moves[|moves| - 1];
      SystemTracks(cfg, node, front);
      var x := Run(cfg, node, front);
      hide Tracks, AfterEntry, Run;
      match m {
        case Entry(d, o) =>
          if !x.ended {
            TracksEntry(x, d, o);
          }
        case Deliver(d) =>
          TracksDelivery(cfg, x, d);
      }
    }
  }

  /**
   Two-ended agreement, for the documents of any log in any order.  In a reachable state the messages in flight
   all read whole, and applied to the receiver's keys they give the emulator's, duplicate creates and removes of
   unknown handles included, exactly when the emulator has not sent for a document whose info was not logged.
   A failed GEM_CLOSE, after which the emulator ends, leaves it one key more.
   */
  lemma BothEndsAgreeIff(cfg: Config, node: u32, moves: seq<Move>)
    requires LoggedMoves(moves)
    ensures var x := Run(cfg, node, moves);
            && (Agree(x) <==> !x.derailed)
            && (x.derailed ==> PendingKeys(x.s.handles.Keys, x.queue) == None)
  {
    SystemTracks(cfg, node, moves);
    var x := Run(cfg, node, moves);
    if x.derailed {
      GarbledHasNoKeys(x.s.handles.Keys, x.queue);
    }
    hide Run;
  }

  /** Every entry is a document of the log that a recording leaves. */
  ghost predicate FromLog(docs: seq<Doc>, moves: seq<Move>) {
    forall i :: 0 <= i < |moves| && moves[i].Entry? ==> moves[i].doc in docs
  }

  /** A document that is no removal or display without its info. */
  predicate Informed(m: Move)
    requires LoggedMove(m)
  {
    m.Entry? ==> m.doc.meta.kind == EVENT_CREATE_BUFFER || !InfoMissing(m.doc)
  }

  ghost predicate AllInformed(moves: seq<Move>)
    requires LoggedMoves(moves)
  {
    forall i :: 0 <= i < |moves| ==> Informed(moves[i])
  }

  /**
   The log of any recording, made with any outcome of the reads, replayed while the receiver takes its messages at
   any pace: if every removal and display in it has its info, both ends agree in every reachable state.
   */
  lemma BothEndsAgree(recorder: Config, hs: seq<Happening>, cfg: Config, node: u32, moves: seq<Move>)
    requires FromLog(Recorded(recorder, hs).s.docs, moves)
    ensures LoggedMoves(moves)
    ensures AllInformed(moves) ==> Agree(Run(cfg, node, moves))
  {
    RecordingLogs(recorder, hs);
    if AllInformed(moves) {
      NothingDerails(cfg, node, moves);
      BothEndsAgreeIff(cfg, node, moves);
    }
  }

  lemma {:induction false} NothingDerails(cfg: Config, node: u32, moves: seq<Move>)
    requires LoggedMoves(moves)
    requires AllInformed(moves)
    ensures !Run(cfg, node, moves).derailed
  {
    if moves == [] {
    } else {
      var front, m := moves[..|moves| - 1], moves[|moves| - 1];
      assert forall i :: 0 <= i < |front| ==> front[i] == moves[i];
      NothingDerails(cfg, node, front);
      var x := Run(cfg, node, front);
      if m.Entry? {
        assert Informed(moves[|moves| - 1]);
        BareCreateIsSilent(x.emu, m.doc, m.o);
      }
      hide Run, Written, InfoMissing, AfterMessage, Process;
    }
  }

  /** A create logged without its handle sends nothing. */
  lemma BareCreateIsSilent(e: Emulator, d: Doc, o: Outcome)
    requires LoggedDoc(d)
    ensures d.meta.kind == EVENT_CREATE_BUFFER && d.body.handle.None? ==> Written(e, ParsedOf(d), o) == []
    ensures d.meta.kind == EVENT_CREATE_BUFFER && InfoMissing(d) ==> d.body.handle.None?
  {
    if d.meta.kind == EVENT_CREATE_BUFFER && d.body.handle.None? {
      assert Process(e, ParsedOf(d), o).emu == e;
      assert e.sent + [] == e.sent;
      WrittenIs(e, ParsedOf(d), o, []);
    }
  }

  /** A failed read is enough: the log then holds a removal on which the two ends part. */
  lemma FailedReadDisagrees(recorder: Config, hs: seq<Happening>, a: Arrival, cfg: Config, node: u32, o: Outcome)
    requires a.ev.kind == REMOVE_BUFFER && a.info.None? && Recorded(recorder, hs).working
    ensures var docs := Recorded(recorder, hs + [Worker(FrameLifecycle.Message(a))]).s.docs;
            && docs != [] && LoggedMoves([Entry(docs[|docs| - 1], o)])
            && !Agree(Run(cfg, node, [Entry(docs[|docs| - 1], o)]))
  {
    var more := hs + [Worker(FrameLifecycle.Message(a))];
    assert more[..|hs|] == hs;
    RecordingLogs(recorder, more);
    var docs := Recorded(recorder, more).s.docs;
    var d := docs[|docs| - 1];
    assert d.meta.kind == EVENT_REMOVE_BUFFER && InfoMissing(d);
    var moves := [Entry(d, o)];
    assert moves[..0] == [];
    MissingRemoveIsSent(Connected(node).emu, d, o);
    assert Run(cfg, node, moves).derailed;
    BothEndsAgreeIff(cfg, node, moves);
  }

  /** A create whose size is off leaves its body in the stream, and the receiver then reads it as a header. */
  lemma WrongSizeGarbles(e: Emulator, p: Parsed, o: Outcome, d: Delivery)
    requires Named(p) && p.Parsed? && p.way == Sending && p.payload.CreatePayload?
    requires Process(e, p, o).status == Ok && p.payload.ev.size != CREATE_SIZE
    ensures Take(Written(e, p, o), d).Taken? && Take(Take(Written(e, p, o), d).rest, d) == Garbled
  {
    var r, ev, remote := Process(e, p, o), p.payload.ev, p.payload.remote;
    WrittenIs(e, p, o, [DisplayEmulator.Header(e, ev), Info(remote), Handle(p.payload.handle),
        Descriptors([r.emu.boList[remote]])]);
  }
}
