/**
 VirtualHwcReceiver: what each message does to the handle map, the frame handler and the log.  The functions
 say what happens for every outcome of the reads; the class does it step by step and is proved against them.
 */
module DisplayReceiver {
  import opened Wrappers
  import opened DisplayProtocol
  import opened LogStructs
  import opened ProfileLog

  /** ConfigInfo and the render node parsed from the device name; instanceId is negative outside Docker. */
  datatype Config = Config(instanceId: int, renderNode: int, width: u32, height: u32, userId: u32)

  /** A local copy of a handle, as allocated. */
  datatype Local = Local(id: nat, handle: Gralloc)

  /** What the frame handler and the allocator see. */
  datatype Call = Created(id: nat) | Shown(id: nat, ctrl: Option<Control>) | Removed(id: nat) | Freed(id: nat)

  /**
   One message: its header and what each later read gives if it is made; None is a failed read.  `sent` tells
   whether the reply goes out.
   */
  datatype Arrival = Arrival(ev: DisplayEvent, info: Option<u64>, handle: Option<Gralloc>, fds: Option<Fds>,
                             ctrl: Option<Control>, sent: bool, now: nat, ackNow: nat)

  datatype State = State(handles: map<u64, Local>, nextId: nat, calls: seq<Call>, docs: seq<Doc>, counts: Tally)

  const CREATE_SIZE := SIZEOF_EVENT + SIZEOF_BUFFER_INFO + SIZEOF_GRALLOC

  predicate Accepts(cfg: Config, ev: DisplayEvent) {
    || cfg.instanceId < 0
    || (cfg.renderNode != -1 && cfg.renderNode == Signed32(ev.renderNode) + 128 && cfg.instanceId == Signed32(ev.id))
  }

  /** recvFds takes 1 to 4 descriptors. */
  predicate FdsAccepted(h: Gralloc) {
    1 <= h.base.numFds <= DRV_MAX_PLANES
  }

  /** The handle that is kept and logged: received descriptors in front, one tiled format renamed. */
  function Kept(h: Gralloc, fds: Fds): Gralloc
    requires FdsAccepted(h)
  {
    var n := h.base.numFds;
    var format := if h.extent.format == NV12_Y_TILED_INTEL then NV12 else h.extent.format;
    h.(planes := h.planes.(fds := fds[..n] + h.planes.fds[n..]), extent := h.extent.(format := format))
  }

  /** Bytes after the header of a DISPLAY_REQ, as the int parameter of DisplayRequest. */
  function Rest(ev: DisplayEvent): i32 {
    Signed32(ev.size - SIZEOF_EVENT)
  }

  predicate WithControl(ev: DisplayEvent) {
    Rest(ev) == SIZEOF_BUFFER_INFO + SIZEOF_CONTROL
  }

  function InfoReply(cfg: Config): Body {
    InfoBody(DisplayEvent(DISPINFO_ACK, SIZEOF_EVENT + SIZEOF_INFO, 0, 0),
             DisplayInfo(1, cfg.width, cfg.height, Signed32(cfg.width), 5, "240.000000", "240.000000", "60.000000", 1,
                 1, 2))
  }

  function PortReply(cfg: Config): Body {
    PortBody(DisplayEvent(DISPPORT_ACK, SIZEOF_EVENT + SIZEOF_PORT, 0, 0), DisplayPort(cfg.userId, 0))
  }

  function DisplayReply(remote: u64): Body {
    BufferBody(DisplayEvent(DISPLAY_ACK, SIZEOF_EVENT + SIZEOF_BUFFER_INFO, 0, 0), Some(remote), None, None)
  }

  /** One more document, numbered in order, with the counts as they stand. */
  function Log(s: State, kind: LogEvent, now: nat, body: Body): State {
    s.(docs := s.docs + [Doc(Meta(|s.docs|, kind, now, s.counts), body)])
  }

  function Count(s: State, ev: DisplayEvent): State {
    s.(counts := Counted(s.counts, TranslateEvType(ev.kind)))
  }

  /** CreateBuffer's success: everything was read and the descriptors accepted. */
  predicate CreateCompletes(a: Arrival) {
    a.info.Some? && a.handle.Some? && FdsAccepted(a.handle.value) && a.fds.Some?
  }

  function AfterCreate(s: State, a: Arrival): State {
    if !CreateCompletes(a) then
      Log(s, EVENT_CREATE_BUFFER, a.now, BufferBody(a.ev, a.info, None, None))
    else
      var handle := Kept(a.handle.value, a.fds.value);
      var local := Local(s.nextId, handle);
      Log(s, EVENT_CREATE_BUFFER, a.now, BufferBody(a.ev, a.info, Some(handle), None))
      .(handles := if a.info.value in s.handles then s.handles else s.handles[a.info.value := local],
        nextId := s.nextId + 1,
        calls := s.calls + [Created(s.nextId)])
  }

  function AfterRemove(s: State, a: Arrival): State {
    var s' := Log(s, EVENT_REMOVE_BUFFER, a.now, BufferBody(a.ev, a.info, None, None));
    if a.info.None? || a.info.value !in s.handles then s'
    else
      var id := s.handles[a.info.value].id;
      s'.(handles := s.handles - {a.info.value}, calls := s.calls + [Removed(id), Freed(id)])
  }

  function AfterDisplay(s: State, a: Arrival): State {
    if Rest(a.ev) < SIZEOF_BUFFER_INFO || a.info.None? then
      Log(s, EVENT_DISPLAY_REQ, a.now, BufferBody(a.ev, None, None, None))
    else if WithControl(a.ev) && a.ctrl.None? then
      Log(s, EVENT_DISPLAY_REQ, a.now, BufferBody(a.ev, a.info, None, None))
    else
      var ctrl := if WithControl(a.ev) then a.ctrl else None;
      var s' := Log(s, EVENT_DISPLAY_REQ, a.now, BufferBody(a.ev, a.info, None, ctrl));
      if a.info.value !in s.handles then s'
      else
        var s'' := s'.(calls := s.calls + [Shown(s.handles[a.info.value].id, ctrl)]);
        if !a.sent then s'' else Log(s'', EVENT_DISPLAY_REQ_ACK, a.ackNow, DisplayReply(a.info.value))
  }

  /** The effect of one message. */
  function AfterMessage(cfg: Config, s: State, a: Arrival): State {
    var c, kind := Count(s, a.ev), a.ev.kind;
    if kind == CREATE_BUFFER && a.ev.size == CREATE_SIZE then AfterCreate(c, a)
    else if kind == CREATE_BUFFER then Log(c, EVENT_CREATE_BUFFER, a.now, BufferBody(a.ev, None, None, None))
    else if kind == REMOVE_BUFFER then AfterRemove(c, a)
    else if kind == DISPLAY_REQ then AfterDisplay(c, a)
    else
      var s' := Log(c, TranslateEvType(kind), a.now, HeaderBody(a.ev));
      if kind == DISPINFO_REQ && Accepts(cfg, a.ev) then Log(s', EVENT_DISPINFO_REQ_ACK, a.ackNow, InfoReply(cfg))
      else if kind == DISPPORT_REQ then Log(s', EVENT_DISPPORT_REQ_ACK, a.ackNow, PortReply(cfg))
      else s'
  }

  function AfterRun(cfg: Config, s: State, run: seq<Arrival>): State {
    if run == [] then s else AfterMessage(cfg, AfterRun(cfg, s, run[..|run| - 1]), run[|run| - 1])
  }

  predicate IsLeast(keys: set<u64>, k: u64) {
    k in keys && forall j :: j in keys ==> k <= j
  }

  /** The least key of a map, where an iteration over it starts. */
  function Least(keys: set<u64>): (k: u64)
    requires keys != {}
    ensures IsLeast(keys, k)
  {
    LeastExists(keys);
    LeastUnique(keys);
    var k :| IsLeast(keys, k);
    k
  }

  lemma LeastUnique(keys: set<u64>)
    ensures forall j, k :: IsLeast(keys, j) && IsLeast(keys, k) ==> j == k
  {
  }

  lemma {:induction false} LeastExists(keys: set<u64>)
    requires keys != {}
    ensures exists k :: IsLeast(keys, k)
    decreases |keys|
  {
    var x :| x in keys;
    var rest := keys - {x};
    if rest == {} {
      assert IsLeast(keys, x) by {
        assert forall j :: j in keys && j != x ==> j in rest;
      }
    } else {
      LeastExists(rest);
      var k :| IsLeast(rest, k);
      LeastOfTwo(keys, x, k);
    }
  }

  lemma LeastOfTwo(keys: set<u64>, x: u64, k: u64)
    requires x in keys && IsLeast(keys - {x}, k)
    ensures IsLeast(keys, if x <= k then x else k)
  {
    assert forall j :: j in keys && j != x ==> j in keys - {x};
  }

  /** What stop does with the handles left: every one removed and freed, in key order. */
  function ReleaseCalls(handles: map<u64, Local>): seq<Call>
    decreases |handles.Keys|
  {
    if handles.Keys == {} then []
    else
      var k := Least(handles.Keys);
      assert (handles - {k}).Keys == handles.Keys - {k};
      [Removed(handles[k].id), Freed(handles[k].id)] + ReleaseCalls(handles - {k})
  }

  function AfterStop(s: State): State {
    s.(handles := map[], calls := s.calls + ReleaseCalls(s.handles))
  }
}
