/**
 Whole recordings replayed: what the emulator sends for sessions of any kind, which buffer objects it is left with,
 and the runs that replay faithfully.
 */
module ReplayFidelity {
  import opened Wrappers
  import opened DisplayProtocol
  import opened YmlTree
  import opened LogStructs
  import opened LogDecode
  import opened LogRoundTrip
  import opened LogEvents
  import opened LogDocuments
  import opened LogFile
  import opened ProfileLog
  import opened DisplayReceiver
  import opened DisplayEmulator
  import opened Recording
  import opened Replay
  import FrameLifecycle

  predicate AllDelivered(run: seq<Arrival>) {
    forall i :: 0 <= i < |run| ==> Delivered(run[i])
  }

  lemma DeliveredFront(run: seq<Arrival>)
    requires AllDelivered(run) && run != []
    ensures AllDelivered(run[..|run| - 1]) && Delivered(run[|run| - 1])
  {
  }

  // ----- no counter leaves its C int -----

  predicate Within(c: Tally, n: nat) {
    && c.create <= n && c.remove <= n && c.display <= n && c.resolution <= n && c.dispInfo <= n && c.dispPort <= n
    && c.alpha <= n
  }

  lemma NewDocsLoggable(cfg: Config, s: State, a: Arrival, n: nat)
    requires Delivered(a) && Within(s.counts, n) && |s.docs| <= 2 * n && 2 * n + 2 < MAX_I32
    ensures Loggable(NewDocs(cfg, s, a)) && |AfterMessage(cfg, s, a).docs| <= 2 * n + 2
    ensures Within(AfterMessage(cfg, s, a).counts, n + 1)
  {
    DocsOfMessage(cfg, s, a);
    NewDocsFit(cfg, s, a);
    CountedWithin(s.counts, TranslateEvType(a.ev.kind), n);
    hide AfterMessage, Fits, FirstBody, ReplyBody, Counted;
  }

  lemma CountedWithin(c: Tally, t: LogEvent, n: nat)
    requires Within(c, n)
    ensures Within(Counted(c, t), n + 1)
  {
  }

  // ----- what one happening adds -----

  /** Nothing the worker reads fails, every reply goes out, and times fit a long. */
  predicate Sane(h: Happening) {
    match h
    case Worker(Message(a)) => Delivered(a)
    case Worker(_) => true
    case Mode(now, _, _) => now < MAX_I64
    case Alpha(now, _) => now < MAX_I64
  }

  predicate AllSane(hs: seq<Happening>) {
    forall i :: 0 <= i < |hs| ==> Sane(hs[i])
  }

  function ClientDoc(s: State, kind: LogEvent, now: nat, body: Body): Doc {
    Doc(Meta(|s.docs|, kind, now, Counted(s.counts, kind)), body)
  }

  function DocsOf(cfg: Config, x: Session, h: Happening): seq<Doc>
    requires Sane(h)
  {
    match h
    case Worker(Message(a)) => if x.working then NewDocs(cfg, x.s, a) else []
    case Worker(_) => []
    case Mode(now, width, height) =>
      if x.started then [ClientDoc(x.s, EVENT_CHANGE_RESOLUTION, now, ModeBody(width, height))] else []
    case Alpha(now, enable) =>
      if x.started then [ClientDoc(x.s, EVENT_SET_ALPHA, now, AlphaReply(enable))] else []
  }

  lemma DocsAdded(cfg: Config, x: Session, h: Happening)
    requires Sane(h)
    ensures After(cfg, x, h).s.docs == x.s.docs + DocsOf(cfg, x, h)
  {
    hide NewDocs, AfterMessage, ReleaseCalls, Counted;
    if h.Worker? && h.input.Message? && x.working {
      DocsOfMessage(cfg, x.s, h.input.a);
    }
  }

  /** The counters and the number of documents after `n` happenings that log. */
  ghost predicate Bounded(s: State, n: nat) {
    Within(s.counts, n) && |s.docs| <= 2 * n
  }

  function Weight(h: Happening): nat {
    if h.Worker? && !h.input.Message? then 0 else 1
  }

  lemma HappeningLoggable(cfg: Config, x: Session, h: Happening, n: nat)
    requires Sane(h) && Bounded(x.s, n) && 2 * (n + Weight(h)) < MAX_I32
    ensures Loggable(DocsOf(cfg, x, h)) && Bounded(After(cfg, x, h).s, n + Weight(h))
  {
    match h
    case Worker(Message(a)) =>
      hide Delivered, NewDocs, AfterMessage, Within, Loggable;
      if x.working {
        NewDocsLoggable(cfg, x.s, a, n);
      }
    case Worker(_) =>
      hide ReleaseCalls, Within;
    case Mode(_, _, _) =>
      CountedWithin(x.s.counts, EVENT_CHANGE_RESOLUTION, n);
      hide Counted;
    case Alpha(_, _) =>
      CountedWithin(x.s.counts, EVENT_SET_ALPHA, n);
      hide Counted;
  }

  // ----- any recording -----

  /** What replaying a happening sends, the buffer objects after it, and whether the replay goes on. */
  function EchoOfHappening(cfg: Config, x: Session, e: Emulator, h: Happening, fd: i32): Echo
    requires Sane(h)
  {
    match h
    case Worker(Message(a)) => if x.working then EchoOf(cfg, e, a, fd) else Echo([], e.boList, true)
    case Worker(_) => Echo([], e.boList, true)
    case Mode(_, width, height) => Echo([], e.boList, x.started ==> width < MAX_I32 && height < MAX_I32)
    case Alpha(_, _) => Echo([], e.boList, !x.started)
  }

  /** A resolution change is read over; an alpha request ends the replay. */
  lemma ClientParsed(s: State, now: nat, width: u32, height: u32, enable: u32)
    ensures var d := ClientDoc(s, EVENT_CHANGE_RESOLUTION, now, ModeBody(width, height));
            && Fits(d)
            && (ParsedOf(d).Parsed? <==> width < MAX_I32 && height < MAX_I32)
            && (ParsedOf(d).Parsed? ==>
                  ParsedOf(d).way == Receiving && ParsedOf(d).code == SETUP_RESOLUTION && !ParsedOf(d).payload.Nothing?)
    ensures var d := ClientDoc(s, EVENT_SET_ALPHA, now, AlphaReply(enable));
            && Fits(d)
            && (ParsedOf(d).Parsed? ==> ParsedOf(d).way == Receiving && !Awaited(ParsedOf(d).code))
  {
    hide Counted;
  }

  lemma HappeningReplayed(cfg: Config, x: Session, h: Happening, e: Emulator, i: nat, outcome: nat -> Outcome)
    requires Sane(h) && NothingFails(outcome) && Loggable(DocsOf(cfg, x, h))
    ensures Yields(Play(e, ParsedAll(DocsOf(cfg, x, h)), i, outcome), e,
                   EchoOfHappening(cfg, x, e, h, outcome(i).alloc.value))
  {
    match h
    case Worker(Message(a)) =>
      hide NewDocs, Delivered, EchoOf, Loggable;
      if x.working {
        hide Play, ParsedAll;
        MessageReplayed(cfg, x.s, a, e, i, outcome);
      } else {
        assert e.sent + [] == e.sent;
      }
    case Worker(_) =>
      assert e.sent + [] == e.sent;
    case Mode(now, width, height) =>
      ClientParsed(x.s, now, width, height, 0);
      if x.started {
        assert DocsOf(cfg, x, h)[0] == ClientDoc(x.s, EVENT_CHANGE_RESOLUTION, now, ModeBody(width, height));
        OneReplayed(ClientDoc(x.s, EVENT_CHANGE_RESOLUTION, now, ModeBody(width, height)), e, i, outcome);
      }
      hide ParsedOf, ClientDoc, ModeBody, Loggable, NothingFails;
      assert e.sent + [] == e.sent;
    case Alpha(now, enable) =>
      ClientParsed(x.s, now, 0, 0, enable);
      if x.started {
        assert DocsOf(cfg, x, h)[0] == ClientDoc(x.s, EVENT_SET_ALPHA, now, AlphaReply(enable));
        OneReplayed(ClientDoc(x.s, EVENT_SET_ALPHA, now, AlphaReply(enable)), e, i, outcome);
      }
      hide ParsedOf, ClientDoc, AlphaReply, Loggable, NothingFails;
      assert e.sent + [] == e.sent;
  }

  /** A document the emulator does not answer: read over if it awaits it. */
  lemma OneReplayed(d: Doc, e: Emulator, i: nat, outcome: nat -> Outcome)
    requires Fits(d) && SmallMeta(d.meta)
    requires ParsedOf(d).Parsed? ==> ParsedOf(d).way == Receiving
    ensures Loggable([d])
    ensures var p, r := ParsedOf(d), Play(e, ParsedAll([d]), i, outcome);
            r.emu == e && (r.status == EndOfFile <==> p.Parsed? && !p.payload.Nothing? && Awaited(p.code))
  {
    OneParsed(d);
    PlayOne(e, ParsedOf(d), i, outcome);
    hide ParsedOf, Play, ParsedAll;
  }

  /** The emulator after echoing a recording, and whether it got through. */
  datatype Echoed = Echoed(emu: Emulator, through: bool)

  /** Each happening echoed in turn, until one ends the replay. */
  ghost function EchoAll(cfg: Config, hs: seq<Happening>, node: u32, outcome: nat -> Outcome): Echoed
    requires AllSane(hs) && NothingFails(outcome)
  {
    if hs == [] then Echoed(Emulator(map[], [], node), true)
    else
      var front := hs[..|hs| - 1];
      var x := EchoAll(cfg, front, node, outcome);
      if !x.through then x
      else
        var before := Recorded(cfg, front);
        var echo := EchoOfHappening(cfg, before, x.emu, hs[|hs| - 1], outcome(|before.s.docs|).alloc.value);
        Echoed(Emulator(echo.boList, x.emu.sent + echo.units, node), echo.through)
  }

  ghost predicate Matches(r: Played, x: Echoed) {
    && r.emu.sent == x.emu.sent && r.emu.node == x.emu.node
    && (r.status == EndOfFile <==> x.through)
    && (x.through ==> r.emu == x.emu)
  }

  lemma {:induction false} RecordingReplayed(cfg: Config, hs: seq<Happening>, node: u32, outcome: nat -> Outcome)
    requires AllSane(hs) && NothingFails(outcome) && 2 * Entries(hs) < MAX_I32
    ensures var s, x := Recorded(cfg, hs).s, EchoAll(cfg, hs, node, outcome);
            && Bounded(s, Entries(hs)) && Loggable(s.docs) && x.emu.node == node
            && Matches(Play(Emulator(map[], [], node), ParsedAll(s.docs), 0, outcome), x)
  {
    if hs == [] {
    } else {
      var front, h := hs[..|hs| - 1], hs[|hs| - 1];
      RecordingReplayed(cfg, front, node, outcome);
      hide AllSane, NothingFails, Bounded, Loggable, Sane, EchoOfHappening, After, Matches, Play, ParsedAll, DocsOf;
      var before := Recorded(cfg, front);
      HappeningLoggable(cfg, before, h, Entries(front));
      DocsAdded(cfg, before, h);
      ReplayStep(cfg, before, h, EchoAll(cfg, front, node, outcome), node, outcome);
    }
  }

  /** One more happening at the end of a recording. */
  lemma ReplayStep(cfg: Config, b: Session, h: Happening, x: Echoed, node: u32, outcome: nat -> Outcome)
    requires Sane(h) && NothingFails(outcome) && Loggable(b.s.docs) && Loggable(DocsOf(cfg, b, h))
    requires Matches(Play(Emulator(map[], [], node), ParsedAll(b.s.docs), 0, outcome), x) && x.emu.node == node
    ensures var docs := b.s.docs + DocsOf(cfg, b, h);
            var echo := EchoOfHappening(cfg, b, x.emu, h, outcome(|b.s.docs|).alloc.value);
            && Loggable(docs)
            && Matches(Play(Emulator(map[], [], node), ParsedAll(docs), 0, outcome),
                 if x.through then Echoed(Emulator(echo.boList, x.emu.sent + echo.units, node), echo.through) else x)
  {
    hide Play, ParsedAll, DocsOf, Sane, EchoOfHappening, Loggable;
    var docs := DocsOf(cfg, b, h);
    ParsedConcat(b.s.docs, docs);
    PlayConcat(Emulator(map[], [], node), ParsedAll(b.s.docs), ParsedAll(docs), 0, outcome);
    if x.through {
      HappeningReplayed(cfg, b, h, x.emu, |b.s.docs|, outcome);
    }
  }

  /**
   Any recording at all, sessions started and stopped and messages delivered in any order, resolution changes and
   alpha requests among them, written to a file that is then replayed with nothing failing on the emulator's side:
   the emulator sends the echo of each happening in order up to the first that ends the replay, and reaches the end
   of the file exactly when none does.
   */
  lemma FileReplayed(cfg: Config, hs: seq<Happening>, node: u32, outcome: nat -> Outcome)
    requires AllSane(hs) && NothingFails(outcome) && 2 * Entries(hs) < MAX_I32
    ensures var file := FileRows(Recorded(cfg, hs).s.docs);
            && LoadAll(Documents(file)).Some?
            && Matches(Play(Emulator(map[], [], node), DecodeAll(LoadAll(Documents(file)).value), 0, outcome),
                       EchoAll(cfg, hs, node, outcome))
  {
    hide AllSane, NothingFails, Play, Matches, Documents, Trees, DecodeAll, Bounded, EchoAll;
    var docs := Recorded(cfg, hs).s.docs;
    RecordingReplayed(cfg, hs, node, outcome);
    FileReadsBack(docs);
    DecodesAll(docs);
  }

  // ----- whose buffer objects the emulator holds -----

  /** The keys freed by a stop whose buffer objects the emulator keeps: until they are made anew or removed. */
  function LeftAfter(cfg: Config, x: Session, left: set<u64>, h: Happening): set<u64>
    requires Sane(h)
  {
    match h
    case Worker(Stop) => if x.started then left + x.s.handles.Keys else left
    case Worker(Message(a)) =>
      if !x.working then left
      else if a.ev.kind == CREATE_BUFFER && a.ev.size == CREATE_SIZE then left - {a.info.value}
      else if a.ev.kind == REMOVE_BUFFER then left - {a.info.value}
      else left
    case _ => left
  }

  function LeftOver(cfg: Config, hs: seq<Happening>): set<u64>
    requires AllSane(hs)
  {
    if hs == [] then {}
    else LeftAfter(cfg, Recorded(cfg, hs[..|hs| - 1]), LeftOver(cfg, hs[..|hs| - 1]), hs[|hs| - 1])
  }

  /** The emulator holds the receiver's keys and those left over, which are others. */
  ghost predicate HoldsBoth(s: State, left: set<u64>, boList: map<u64, i32>) {
    boList.Keys == s.handles.Keys + left && s.handles.Keys !! left
  }

  lemma MessageKeepsKeys(cfg: Config, x: Session, left: set<u64>, a: Arrival, e: Emulator, fd: i32)
    requires Delivered(a) && x.working && HoldsBoth(x.s, left, e.boList) && EchoOf(cfg, e, a, fd).through
    ensures HoldsBoth(AfterMessage(cfg, x.s, a), LeftAfter(cfg, x, left, Worker(FrameLifecycle.Message(a))),
                      EchoOf(cfg, e, a, fd).boList)
  {
    hide Kept, SmallGralloc, SmallEvent, Accepts, Rest, Counted, Usable;
  }

  lemma HappeningKeepsKeys(cfg: Config, x: Session, left: set<u64>, h: Happening, e: Emulator, fd: i32)
    requires Sane(h) && HoldsBoth(x.s, left, e.boList) && EchoOfHappening(cfg, x, e, h, fd).through
    ensures HoldsBoth(After(cfg, x, h).s, LeftAfter(cfg, x, left, h), EchoOfHappening(cfg, x, e, h, fd).boList)
  {
    hide EchoOf, Delivered, AfterMessage, Counted, ReleaseCalls, ModeBody, AlphaReply;
    if h.Worker? && h.input.Message? && x.working {
      hide HoldsBoth, LeftAfter;
      MessageKeepsKeys(cfg, x, left, h.input.a, e, fd);
    }
  }

  /**
   As long as the replay goes on, the emulator holds a buffer object for exactly the handles the receiver held when
   it logged and those that stops have freed and nothing since has made or removed.
   */
  lemma {:induction false} KeysFollow(cfg: Config, hs: seq<Happening>, node: u32, outcome: nat -> Outcome)
    requires AllSane(hs) && NothingFails(outcome)
    ensures var x := EchoAll(cfg, hs, node, outcome);
            x.through ==> HoldsBoth(Recorded(cfg, hs).s, LeftOver(cfg, hs), x.emu.boList)
  {
    if hs == [] {
    } else {
      var front, h := hs[..|hs| - 1], hs[|hs| - 1];
      KeysFollow(cfg, front, node, outcome);
      hide HoldsBoth, EchoOfHappening, LeftAfter, After, Sane, NothingFails;
      var x, before := EchoAll(cfg, front, node, outcome), Recorded(cfg, front);
      var fd := outcome(|before.s.docs|).alloc.value;
      if x.through && EchoOfHappening(cfg, before, x.emu, h, fd).through {
        HappeningKeepsKeys(cfg, before, LeftOver(cfg, front), h, x.emu, fd);
      }
    }
  }

  // ----- faithful runs -----

  function NextKeys(live: set<u64>, a: Arrival): set<u64>
    requires Delivered(a)
  {
    if a.ev.kind == CREATE_BUFFER && a.ev.size == CREATE_SIZE then live + {a.info.value}
    else if a.ev.kind == REMOVE_BUFFER then live - {a.info.value}
    else live
  }

  function LiveKeys(run: seq<Arrival>): set<u64>
    requires AllDelivered(run)
  {
    if run == [] then {} else NextKeys(LiveKeys(run[..|run| - 1]), run[|run| - 1])
  }

  /** The four messages in good order: fresh handles made, live ones used, no controls, fields that print small. */
  predicate FaithfulMessage(cfg: Config, live: set<u64>, a: Arrival)
    requires Delivered(a)
  {
    && SmallEvent(a.ev) && (a.ev.kind != DISPINFO_REQ ==> a.info.Some? && a.info.value < MAX_I64)
    && if a.ev.kind == CREATE_BUFFER then
         && a.ev.size == CREATE_SIZE && FdsAccepted(a.handle.value) && a.info.value !in live
         && SmallGralloc(Kept(a.handle.value, a.fds.value)) && Usable(Kept(a.handle.value, a.fds.value).extent)
       else if a.ev.kind == REMOVE_BUFFER then a.info.value in live
       else if a.ev.kind == DISPLAY_REQ then
         a.info.value in live && Rest(a.ev) >= SIZEOF_BUFFER_INFO && !HasControl(a.ev)
       else
         a.ev.kind == DISPINFO_REQ && Accepts(cfg, a.ev)
  }

  predicate Faithful(cfg: Config, run: seq<Arrival>)
    requires AllDelivered(run)
  {
    run == [] || (Faithful(cfg, run[..|run| - 1]) && FaithfulMessage(cfg, LiveKeys(run[..|run| - 1]), run[|run| - 1]))
  }

  /** The documents a faithful run leaves: a reply for each display and info request. */
  function DocCount(run: seq<Arrival>): nat {
    if run == [] then 0
    else
      var kind := run[|run| - 1].ev.kind;
      DocCount(run[..|run| - 1]) + if kind == CREATE_BUFFER || kind == REMOVE_BUFFER then 1 else 2
  }

  /** The message itself, with the emulator's render node, the handle as logged and the new buffer's descriptor. */
  function Canonical(node: u32, a: Arrival, fd: i32): seq<Unit>
    requires Delivered(a) && (a.ev.kind != DISPINFO_REQ ==> a.info.Some?)
    requires a.ev.kind == CREATE_BUFFER ==> a.ev.size == CREATE_SIZE && FdsAccepted(a.handle.value)
  {
    [Unit.Header(a.ev.(renderNode := node))]
    + (if a.ev.kind == DISPINFO_REQ then [] else [Info(a.info.value)])
    + (if a.ev.kind == CREATE_BUFFER then [Handle(Kept(a.handle.value, a.fds.value)), Descriptors([fd])] else [])
  }

  ghost function CanonicalAll(cfg: Config, node: u32, run: seq<Arrival>, outcome: nat -> Outcome): seq<Unit>
    requires AllDelivered(run) && Faithful(cfg, run) && NothingFails(outcome)
  {
    if run == [] then []
    else
      var front := run[..|run| - 1];
      CanonicalAll(cfg, node, front, outcome) + Canonical(node, run[|run| - 1], outcome(DocCount(front)).alloc.value)
  }

  lemma FaithfulEcho(cfg: Config, s: State, a: Arrival, e: Emulator, fd: i32, live: set<u64>)
    requires Delivered(a) && FaithfulMessage(cfg, live, a) && s.handles.Keys == live && e.boList.Keys == live
    requires cfg.width < MAX_I32 && cfg.height < MAX_I32
    ensures var echo := EchoOf(cfg, e, a, fd);
            && echo.through && echo.units == Canonical(e.node, a, fd)
            && echo.boList.Keys == NextKeys(live, a)
    ensures |NewDocs(cfg, s, a)| == if a.ev.kind == CREATE_BUFFER || a.ev.kind == REMOVE_BUFFER then 1 else 2
    ensures AfterMessage(cfg, s, a).handles.Keys == NextKeys(live, a)
  {
    hide Kept, SmallGralloc, SmallEvent, Accepts, Rest, Usable, FirstDoc, ReplyDoc, Counted;
    assert a.ev.kind != DISPINFO_REQ ==> (a.info.value in e.boList <==> a.info.value in live);
  }

  lemma {:induction false} FaithfulAccepted(cfg: Config, run: seq<Arrival>)
    requires AllDelivered(run) && Faithful(cfg, run)
    ensures AllAccepted(cfg, run)
  {
    if run == [] {
    } else {
      DeliveredFront(run);
      FaithfulAccepted(cfg, run[..|run| - 1]);
      hide Delivered, Accepts, SmallEvent, SmallGralloc, Usable, Kept, LiveKeys;
    }
  }

  lemma {:induction false} StartedSane(run: seq<Arrival>)
    requires AllDelivered(run)
    ensures AllSane(Started(run))
  {
    hide Delivered;
    if run == [] {
    } else {
      DeliveredFront(run);
      StartedSane(run[..|run| - 1]);
      StartedMore(run);
    }
  }

  lemma StartEchoes(cfg: Config, node: u32, outcome: nat -> Outcome)
    requires NothingFails(outcome)
    ensures AllSane(Started([])) && EchoAll(cfg, Started([]), node, outcome) == Echoed(Emulator(map[], [], node), true)
  {
    var hs := Started([]);
    assert hs[..0] == [];
    assert EchoAll(cfg, hs[..0], node, outcome) == Echoed(Emulator(map[], [], node), true);
  }

  lemma {:induction false} FaithfulEchoes(cfg: Config, run: seq<Arrival>, node: u32, outcome: nat -> Outcome)
    requires AllDelivered(run) && Faithful(cfg, run) && NothingFails(outcome)
    requires cfg.width < MAX_I32 && cfg.height < MAX_I32
    ensures AllSane(Started(run))
    ensures var x := EchoAll(cfg, Started(run), node, outcome);
            x.through && x.emu.node == node && x.emu.sent == CanonicalAll(cfg, node, run, outcome)
                && x.emu.boList.Keys == LiveKeys(run)
    ensures var s := AfterRun(cfg, Fresh(), run);
            |s.docs| == DocCount(run) && s.handles.Keys == LiveKeys(run)
  {
    StartedSane(run);
    if run == [] {
      StartEchoes(cfg, node, outcome);
    } else {
      var front, a := run[..|run| - 1], run[|run| - 1];
      DeliveredFront(run);
      FaithfulEchoes(cfg, front, node, outcome);
      FaithfulAccepted(cfg, run);
      StartedMore(run);
      hide AllSane, AllDelivered, Delivered, FaithfulMessage, Canonical, EchoOf, AfterMessage, NewDocs, Sane, Started;
      StartedRecords(cfg, front);
      var s, x := AfterRun(cfg, Fresh(), front), EchoAll(cfg, Started(front), node, outcome);
      FaithfulEcho(cfg, s, a, x.emu, outcome(DocCount(front)).alloc.value, LiveKeys(front));
      DocsOfMessage(cfg, s, a);
    }
  }

  /**
   Replay fidelity.  A faithful run, recorded and replayed, is sent again message by message, changed only in
   the render node, the descriptors and the renamed tiled format; the replay reaches the end of the file with a
   buffer object for exactly the live handles.
   */
  lemma FaithfulRunReplayed(cfg: Config, run: seq<Arrival>, node: u32, outcome: nat -> Outcome)
    requires AllDelivered(run) && Faithful(cfg, run) && NothingFails(outcome) && 2 * |run| < MAX_I32
    requires cfg.width < MAX_I32 && cfg.height < MAX_I32
    ensures var file := FileRows(AfterRun(cfg, Fresh(), run).docs);
            && LoadAll(Documents(file)).Some?
            && var r := Play(Emulator(map[], [], node), DecodeAll(LoadAll(Documents(file)).value), 0, outcome);
               r.status == EndOfFile && r.emu.sent == CanonicalAll(cfg, node, run, outcome)
                   && r.emu.boList.Keys == LiveKeys(run)
  {
    hide AllDelivered, NothingFails, Play, Documents, DecodeAll, EchoAll, CanonicalAll, LiveKeys, Faithful, Recorded,
        AfterRun;
    FaithfulAccepted(cfg, run);
    StartedRecords(cfg, run);
    FaithfulEchoes(cfg, run, node, outcome);
    FileReplayed(cfg, Started(run), node, outcome);
  }
}
