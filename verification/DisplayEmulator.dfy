/**
 aic-emu's CmdHandler: replays the documents of a log as the other end of the wire, keeping a buffer object
 per remote handle.
 */
module DisplayEmulator {
  import opened Wrappers
  import opened Sequences
  import opened DisplayProtocol
  import opened YmlTree
  import opened LogDocuments
  import DisplayReceiver

  datatype Status =
    | Ok | EndOfFile | YmlParserErr | PayloadEmpty | BadMetadata | ErrGfx | GfxFail | NullPtr | FrameErr | ErrUnknown

  /**
   What the graphics driver and the content file give while one document is handled: the descriptor of a new
   buffer object if both ioctls succeed, whether GEM_CLOSE does, and whether a frame could be read and copied.
   */
  datatype Outcome = Outcome(alloc: Option<i32>, close: bool, frame: bool)

  /** m_boList, with the descriptor of each buffer object, and all that was written to the socket. */
  datatype Emulator = Emulator(boList: map<u64, i32>, sent: seq<Unit>, node: u32)

  datatype Played = Played(emu: Emulator, status: Status)

  /** Headers go out with the render node of the device in use. */
  function Header(e: Emulator, ev: DisplayEvent): Unit {
    Unit.Header(ev.(renderNode := e.node))
  }

  function Send(e: Emulator, units: seq<Unit>): Emulator {
    e.(sent := e.sent + units)
  }

  predicate Usable(x: Extent) {
    x.width != 0 && x.height != 0 && x.format != 0
  }

  function SendCreate(e: Emulator, ev: DisplayEvent, remote: u64, handle: Gralloc, o: Outcome): Played {
    if !Usable(handle.extent) then Played(e, ErrGfx)
    else if o.alloc.None? then Played(e, GfxFail)
    else
      var boList := if remote in e.boList then e.boList else e.boList[remote := o.alloc.value];
      Played(Send(e.(boList := boList), [Header(e, ev), Info(remote), Handle(handle), Descriptors([boList[remote]])]),
          Ok)
  }

  /** The message goes out before the buffer object is looked up. */
  function SendRemove(e: Emulator, ev: DisplayEvent, remote: u64, o: Outcome): Played {
    var e' := Send(e, [Header(e, ev), Info(remote)]);
    if remote !in e.boList || !o.close then Played(e', GfxFail)
    else Played(e'.(boList := e.boList - {remote}), Ok)
  }

  function SendDisplay(e: Emulator, ev: DisplayEvent, remote: u64, ctrl: Option<Control>, o: Outcome): Played {
    if HasControl(ev) && ctrl.None? then Played(e, ErrUnknown)
    else if remote !in e.boList then Played(e, NullPtr)
    else if !o.frame then Played(e, FrameErr)
    else
      Played(Send(e, [Header(e, ev), Info(remote)] + (if HasControl(ev) then [Controls(ctrl.value)] else [])), Ok)
  }

  /** The ACKs the emulator waits for. */
  predicate Awaited(code: u32) {
    code == DISPINFO_ACK || code == SETUP_RESOLUTION || code == DISPLAY_ACK || code == SET_VIDEO_ALPHA_REQ
  }

  /** DataExchange.  The payload tells the code, except that REMOVE and DISPLAY share one. */
  function Exchange(e: Emulator, code: u32, way: Way, payload: Payload, o: Outcome): Played {
    if payload.Nothing? then Played(e, PayloadEmpty)
    else if way == Sending then
      match payload
      case EventPayload(ev) => Played(Send(e, [Header(e, ev)]), Ok)
      case CreatePayload(ev, remote, handle) => SendCreate(e, ev, remote, handle, o)
      case BufferPayload(ev, remote, ctrl) =>
        if code == REMOVE_BUFFER then SendRemove(e, ev, remote, o) else SendDisplay(e, ev, remote, ctrl, o)
      case _ => Played(e, BadMetadata)
    else if way == Receiving && Awaited(code) then Played(e, Ok)
    else Played(e, BadMetadata)
  }

  /** ProcessNextEntry for one document. */
  function Process(e: Emulator, p: Parsed, o: Outcome): Played {
    if p.Exception? then Played(e, YmlParserErr) else Exchange(e, p.code, p.way, p.payload, o)
  }

  /** The main loop from document number `i` on: until a status other than success. */
  function Play(e: Emulator, ps: seq<Parsed>, i: nat, outcome: nat -> Outcome): Played
    decreases |ps|
  {
    if ps == [] then Played(e, EndOfFile)
    else
      var r := Process(e, ps[0], outcome(i));
      if r.status == Ok then Play(r.emu, ps[1..], i + 1, outcome) else r
  }

  lemma {:induction false} PlayConcat(e: Emulator, a: seq<Parsed>, b: seq<Parsed>, i: nat, outcome: nat -> Outcome)
    ensures Play(e, a + b, i, outcome)
         == (var r := Play(e, a, i, outcome); if r.status == EndOfFile then Play(r.emu, b, i + |a|, outcome) else r)
    decreases |a|
  {
    hide Process;
    if a == [] {
      assert a + b == b;
    } else {
      HeadTail(a, b);
      var r := Process(e, a[0], outcome(i));
      ProcessNotEnd(e, a[0], outcome(i));
      if r.status == Ok {
        PlayConcat(r.emu, a[1..], b, i + 1, outcome);
      }
    }
  }

  lemma ProcessNotEnd(e: Emulator, p: Parsed, o: Outcome)
    ensures Process(e, p, o).status != EndOfFile
  {
  }

  class CmdHandler {
    const m_ymlDocs: seq<seq<Entry>>
    const m_renderNode: u32
    var m_nextNode: nat
    var m_boList: map<u64, i32>
    var socket: seq<Unit>

    constructor (docs: seq<seq<Entry>>, node: u32)
      ensures m_ymlDocs == docs && m_renderNode == node && m_nextNode == 0
      ensures View() == Emulator(map[], [], node)
    {
      m_ymlDocs, m_renderNode, m_nextNode, m_boList, socket := docs, node, 0, map[], [];
    }

    ghost function View(): Emulator
      reads this
    {
      Emulator(m_boList, socket, m_renderNode)
    }

    method WriteIntoSocket(u: Unit)
      modifies `socket
      ensures socket == old(socket) + [u]
    {
      socket := socket + [u];
    }

    method AllocateBo(remote: u64, alloc: Option<i32>) returns (status: Status)
      modifies `m_boList
      ensures status == if alloc.None? then GfxFail else Ok
      ensures m_boList == if alloc.None? || remote in old(m_boList) then old(m_boList)
                else old(m_boList)[remote := alloc.value]
    {
      if alloc.None? {
        return GfxFail;
      }
      if remote !in m_boList {
        m_boList := m_boList[remote := alloc.value];
      }
      return Ok;
    }

    method ClearBo(remote: u64, close: bool) returns (status: Status)
      modifies `m_boList
      ensures var cleared := remote in old(m_boList) && close;
              && status == (if cleared then Ok else GfxFail)
              && m_boList == if cleared then old(m_boList) - {remote} else old(m_boList)
    {
      if remote !in m_boList || !close {
        return GfxFail;
      }
      m_boList := m_boList - {remote};
      return Ok;
    }

    method ExchangeDisplayRequest(ev: DisplayEvent, remote: u64, ctrl: Option<Control>,
        o: Outcome) returns (status: Status)
      modifies `socket
      ensures Played(View(), status) == SendDisplay(old(View()), ev, remote, ctrl, o)
    {
      var event := ev.(renderNode := m_renderNode);
      if HasControl(event) && ctrl.None? {
        return ErrUnknown;
      }
      if remote !in m_boList {
        return NullPtr;
      }
      if !o.frame {
        return FrameErr;
      }
      WriteIntoSocket(Unit.Header(event));
      WriteIntoSocket(Info(remote));
      if HasControl(event) {
        WriteIntoSocket(Controls(ctrl.value));
      }
      return Ok;
    }

    method DataExchange(code: u32, way: Way, payload: Payload, o: Outcome) returns (status: Status)
      modifies `m_boList, `socket
      ensures Played(View(), status) == Exchange(old(View()), code, way, payload, o)
    {
      if payload.Nothing? {
        return PayloadEmpty;
      }
      if way == Sending {
        match payload {
          case EventPayload(ev) =>
            WriteIntoSocket(Unit.Header(ev.(renderNode := m_renderNode)));
            return Ok;
          case CreatePayload(ev, remote, handle) =>
            if handle.extent.width == 0 || handle.extent.height == 0 || handle.extent.format == 0 {
              return ErrGfx;
            }
            status := AllocateBo(remote, o.alloc);
            if status != Ok {
              return;
            }
            WriteIntoSocket(Unit.Header(ev.(renderNode := m_renderNode)));
            WriteIntoSocket(Info(remote));
            WriteIntoSocket(Handle(handle));
            WriteIntoSocket(Descriptors([m_boList[remote]]));
            return Ok;
          case BufferPayload(ev, remote, ctrl) =>
            if code == REMOVE_BUFFER {
              WriteIntoSocket(Unit.Header(ev.(renderNode := m_renderNode)));
              WriteIntoSocket(Info(remote));
              status := ClearBo(remote, o.close);
            } else {
              status := ExchangeDisplayRequest(ev, remote, ctrl, o);
            }
            return;
          case _ =>
            return BadMetadata;
        }
      } else if way == Receiving && Awaited(code) {
        return Ok;
      } else {
        return BadMetadata;
      }
    }

    method ProcessNextEntry(o: Outcome) returns (status: Status)
      requires m_nextNode <= |m_ymlDocs|
      modifies `m_nextNode, `m_boList, `socket
      ensures old(m_nextNode) == |m_ymlDocs| ==>
                status == EndOfFile && View() == old(View()) && m_nextNode == old(m_nextNode)
      ensures old(m_nextNode) < |m_ymlDocs| ==>
                && m_nextNode == old(m_nextNode) + 1
                && Played(View(), status) == Process(old(View()), DecodeNode(m_ymlDocs[old(m_nextNode)]), o)
    {
      hide DecodeNode, Exchange;
      if m_nextNode == |m_ymlDocs| {
        return EndOfFile;
      }
      var p := DecodeNode(m_ymlDocs[m_nextNode]);
      m_nextNode := m_nextNode + 1;
      if p.Exception? {
        return YmlParserErr;
      }
      status := DataExchange(p.code, p.way, p.payload, o);
    }

    /** The loop of aic-emu's main. */
    method RunToEnd(outcome: nat -> Outcome) returns (status: Status)
      requires m_nextNode == 0
      modifies `m_nextNode, `m_boList, `socket
      ensures Played(View(), status) == Play(old(View()), DecodeAll(m_ymlDocs), 0, outcome)
    {
      hide DecodeNode, Process;
      status := Ok;
      while status == Ok
        invariant m_nextNode <= |m_ymlDocs|
        invariant Play(old(View()), DecodeAll(m_ymlDocs), 0, outcome) ==
                  (if status == Ok then Play(View(), DecodeAll(m_ymlDocs[m_nextNode..]), m_nextNode, outcome)
                   else Played(View(), status))
        decreases status == Ok, |m_ymlDocs| - m_nextNode
      {
        ghost var rest := m_ymlDocs[m_nextNode..];
        assert rest != [] ==> rest[0] == m_ymlDocs[m_nextNode] && rest[1..] == m_ymlDocs[m_nextNode + 1..];
        status := ProcessNextEntry(outcome(m_nextNode));
      }
    }
  }

  function DecodeAll(docs: seq<seq<Entry>>): seq<Parsed> {
    if docs == [] then [] else [DecodeNode(docs[0])] + DecodeAll(docs[1..])
  }

  // ----- the end of the emulator -----

  /** The buffer objects in the order a walk over m_boList meets them. */
  function WalkOrder(boList: map<u64, i32>): seq<u64>
    decreases |boList.Keys|
  {
    if boList.Keys == {} then []
    else
      var k := DisplayReceiver.Least(boList.Keys);
      assert (boList - {k}).Keys == boList.Keys - {k};
      [k] + WalkOrder(boList - {k})
  }

  predicate Rising(w: seq<u64>) {
    forall i, j :: 0 <= i < j < |w| ==> w[i] < w[j]
  }

  lemma RisingCons(k: u64, w: seq<u64>)
    requires Rising(w) && forall x :: x in w ==> k < x
    ensures Rising([k] + w)
  {
    assert forall j :: 0 <= j < |w| ==> w[j] in w;
  }

  predicate Lists(w: seq<u64>, keys: set<u64>) {
    Rising(w) && (forall i :: 0 <= i < |w| ==> w[i] in keys) && (forall k :: k in keys ==> k in w)
  }

  lemma ListsCons(k: u64, w: seq<u64>, keys: set<u64>)
    requires k in keys && Lists(w, keys - {k}) && forall x :: x in keys ==> k <= x
    ensures Lists([k] + w, keys)
  {
    assert forall x :: x in w ==> x in keys - {k};
    RisingCons(k, w);
    forall x | x in keys
      ensures x in [k] + w
    {
      if x != k {
        assert x in keys - {k};
      }
    }
  }

  /** The walk meets every buffer object exactly once: its keys rise and are all there are. */
  lemma {:induction false} WalkMeetsEachOnce(boList: map<u64, i32>)
    ensures Lists(WalkOrder(boList), boList.Keys)
    decreases |boList.Keys|
  {
    if boList.Keys == {} {
    } else {
      var k := DisplayReceiver.Least(boList.Keys);
      var rest := boList - {k};
      assert rest.Keys == boList.Keys - {k};
      WalkMeetsEachOnce(rest);
      hide Lists;
      ListsCons(k, WalkOrder(rest), boList.Keys);
    }
  }

  /** GfxHandler's destructor: GEM_CLOSE on each buffer object, which then leaves the map whatever it returned. */
  method CloseAll(boList: map<u64, i32>) returns (closed: seq<u64>, left: map<u64, i32>)
    ensures closed == WalkOrder(boList) && left == map[]
  {
    left, closed := boList, [];
    while left.Keys != {}
      invariant closed + WalkOrder(left) == WalkOrder(boList)
      decreases |left.Keys|
    {
      var k := DisplayReceiver.Least(left.Keys);
      NextClosed(closed, left);
      closed := closed + [k];
      assert (left - {k}).Keys == left.Keys - {k};
      left := left - {k};
    }
  }

  lemma NextClosed(closed: seq<u64>, left: map<u64, i32>)
    requires left.Keys != {}
    ensures var k := DisplayReceiver.Least(left.Keys);
            closed + WalkOrder(left) == closed + [k] + WalkOrder(left - {k})
  {
  }
}
