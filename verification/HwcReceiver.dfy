/**
 The worker's side of VirtualHwcReceiver::Impl: one pass of its loop per message, with the handle map, the
 frame handler's calls and the log file as they are updated.
 */
module HwcReceiver {
  import opened Wrappers
  import opened Sequences
  import opened DisplayProtocol
  import opened YmlTree
  import opened LogStructs
  import opened LogFile
  import opened ProfileLog
  import opened DisplayReceiver

  lemma FileGrows(docs: seq<Doc>, d: Doc)
    ensures FileRows(docs + [d]) == FileRows(docs) + DocRows(d)
  {
    hide DocRows;
    FileRowsConcat(docs, [d]);
    FileRowsOne(d);
  }

  class VirtualHwcReceiver {
    const config: Config
    const m_pLog: ProfileLogger
    var mHandles: map<u64, Local>
    var nextId: nat
    var calls: seq<Call>
    var started: bool
    ghost var docs: seq<Doc>
    ghost var counts: Tally

    constructor (config: Config, logging: bool)
      ensures Valid() && fresh(m_pLog) && this.config == config && !started
      ensures View() == State(map[], 0, [], [], Tally(0, 0, 0, 0, 0, 0, 0))
    {
      this.config := config;
      m_pLog := new ProfileLogger(logging);
      mHandles, nextId, calls, started := map[], 0, [], false;
      docs, counts := [], Tally(0, 0, 0, 0, 0, 0, 0);
    }

    /** The file holds exactly the documents so far. */
    ghost predicate Valid()
      reads this, m_pLog
    {
      m_pLog.enabled ==> m_pLog.file == FileRows(docs) && m_pLog.reportId == |docs| && m_pLog.counts == counts
    }

    /** The file holds the documents so far and one that is being written. */
    ghost predicate Writing(d: Doc)
      reads this, m_pLog
    {
      m_pLog.enabled ==>
        m_pLog.file == FileRows(docs) + DocRows(d) && m_pLog.reportId == |docs| + 1 && m_pLog.counts == counts
    }

    ghost function View(): State
      reads this
    {
      State(mHandles, nextId, calls, docs, counts)
    }

    ghost method Finish(d: Doc)
      requires Writing(d)
      modifies `docs
      ensures Valid() && docs == old(docs) + [d]
    {
      hide DocRows, FileRows;
      FileGrows(docs, d);
      docs := docs + [d];
    }

    method LogReply(kind: LogEvent, now: nat)
      requires Valid()
      modifies m_pLog
      ensures Writing(Doc(Meta(|docs|, kind, now, counts), NoBody)) && m_pLog.enabled == old(m_pLog.enabled)
    {
      hide DocRows, FileRows;
      m_pLog.LogGenericEventInfo(kind, now, None);
    }

    method GetHandle(h: u64) returns (local: Option<Local>)
      ensures local == if h in mHandles then Some(mHandles[h]) else None
    {
      local := if h in mHandles then Some(mHandles[h]) else None;
    }

    /** Logs the buffer_info_t of the message being handled. */
    method LogBufferInfo(ghost meta: Meta, ghost ev: DisplayEvent, remote: u64)
      requires Writing(Doc(meta, BufferBody(ev, None, None, None)))
      modifies m_pLog
      ensures Writing(Doc(meta, BufferBody(ev, Some(remote), None, None)))
    {
      hide DocRows, FileRows, Written;
      m_pLog.AddBufferInfoStruct(remote, 2);
      GrowInfo(meta, ev, remote);
      Assoc(FileRows(docs), DocRows(Doc(meta, BufferBody(ev, None, None, None))), Written(2, [BufferInfoTree(remote)]));
    }

    method LogHandle(ghost meta: Meta, ghost ev: DisplayEvent, ghost remote: u64, handle: Gralloc)
      requires Writing(Doc(meta, BufferBody(ev, Some(remote), None, None)))
      modifies m_pLog
      ensures Writing(Doc(meta, BufferBody(ev, Some(remote), Some(handle), None)))
    {
      hide DocRows, FileRows, Written, GrallocTree;
      m_pLog.AddGrallocHandleStruct(handle, 2);
      GrowHandle(meta, ev, remote, handle);
      Assoc(FileRows(docs), DocRows(Doc(meta, BufferBody(ev, Some(remote), None, None))),
          Written(2, [GrallocTree(handle)]));
    }

    method LogControl(ghost meta: Meta, ghost ev: DisplayEvent, ghost remote: u64, ctrl: Control)
      requires Writing(Doc(meta, BufferBody(ev, Some(remote), None, None)))
      modifies m_pLog
      ensures Writing(Doc(meta, BufferBody(ev, Some(remote), None, Some(ctrl))))
    {
      hide DocRows, FileRows, Written, ControlTree;
      m_pLog.AddDisplayControlStruct(ctrl, 2);
      GrowControl(meta, ev, remote, ctrl);
      Assoc(FileRows(docs), DocRows(Doc(meta, BufferBody(ev, Some(remote), None, None))),
          Written(2, [ControlTree(ctrl)]));
    }

    method CreateBuffer(a: Arrival)
      requires Writing(Doc(Meta(|docs|, EVENT_CREATE_BUFFER, a.now, counts), BufferBody(a.ev, None, None, None)))
      modifies this, m_pLog
      ensures Valid() && View() == AfterCreate(old(View()), a) && started == old(started)
    {
      hide DocRows, FileRows, Kept, Writing;
      ghost var meta := Meta(|docs|, EVENT_CREATE_BUFFER, a.now, counts);
      if a.info.None? {
        Finish(Doc(meta, BufferBody(a.ev, None, None, None)));
        return;
      }
      LogBufferInfo(meta, a.ev, a.info.value);
      if a.handle.None? || !FdsAccepted(a.handle.value) || a.fds.None? {
        Finish(Doc(meta, BufferBody(a.ev, a.info, None, None)));
        return;
      }
      var handle := Kept(a.handle.value, a.fds.value);
      LogHandle(meta, a.ev, a.info.value, handle);
      Finish(Doc(meta, BufferBody(a.ev, a.info, Some(handle), None)));
      if a.info.value !in mHandles {
        mHandles := mHandles[a.info.value := Local(nextId, handle)];
      }
      calls := calls + [Created(nextId)];
      nextId := nextId + 1;
    }

    method RemoveBuffer(a: Arrival)
      requires Writing(Doc(Meta(|docs|, EVENT_REMOVE_BUFFER, a.now, counts), BufferBody(a.ev, None, None, None)))
      modifies this, m_pLog
      ensures Valid() && View() == AfterRemove(old(View()), a) && started == old(started)
    {
      hide DocRows, FileRows, Written;
      ghost var meta := Meta(|docs|, EVENT_REMOVE_BUFFER, a.now, counts);
      if a.info.None? {
        Finish(Doc(meta, BufferBody(a.ev, None, None, None)));
        return;
      }
      LogBufferInfo(meta, a.ev, a.info.value);
      Finish(Doc(meta, BufferBody(a.ev, a.info, None, None)));
      var local := GetHandle(a.info.value);
      if local.None? {
        return;
      }
      calls := calls + [Removed(local.value.id)];
      calls := calls + [Freed(local.value.id)];
      mHandles := mHandles - {a.info.value};
      Assoc(old(calls), [Removed(local.value.id)], [Freed(local.value.id)]);
    }

    method DisplayRequest(a: Arrival)
      requires Writing(Doc(Meta(|docs|, EVENT_DISPLAY_REQ, a.now, counts), BufferBody(a.ev, None, None, None)))
      modifies this, m_pLog
      ensures Valid() && View() == AfterDisplay(old(View()), a) && started == old(started)
    {
      hide DocRows, FileRows, Rest, Writing;
      ghost var meta := Meta(|docs|, EVENT_DISPLAY_REQ, a.now, counts);
      if Rest(a.ev) < SIZEOF_BUFFER_INFO || a.info.None? {
        Finish(Doc(meta, BufferBody(a.ev, None, None, None)));
        return;
      }
      LogBufferInfo(meta, a.ev, a.info.value);
      var ctrl: Option<Control> := None;
      if WithControl(a.ev) {
        ctrl := a.ctrl;
        if ctrl.None? {
          Finish(Doc(meta, BufferBody(a.ev, a.info, None, None)));
          return;
        }
        LogControl(meta, a.ev, a.info.value, ctrl.value);
      }
      Finish(Doc(meta, BufferBody(a.ev, a.info, None, ctrl)));
      var local := GetHandle(a.info.value);
      if local.None? {
        return;
      }
      calls := calls + [Shown(local.value.id, ctrl)];
      if !a.sent {
        return;
      }
      LogDisplayAck(a);
    }

    method LogDisplayAck(a: Arrival)
      requires Valid() && a.info.Some?
      modifies `docs, m_pLog
      ensures Valid() && View() == Log(old(View()), EVENT_DISPLAY_REQ_ACK, a.ackNow, DisplayReply(a.info.value))
    {
      hide DocRows, FileRows, Written, BodyTree;
      ghost var meta, rows := Meta(|docs|, EVENT_DISPLAY_REQ_ACK, a.ackNow, counts), FileRows(docs);
      LogReply(EVENT_DISPLAY_REQ_ACK, a.ackNow);
      var reply := DisplayReply(a.info.value);
      m_pLog.AddBufferInfoEventStruct(reply.ev, a.info.value);
      GrowBody(meta, reply);
      Assoc(rows, DocRows(Doc(meta, NoBody)), Written(1, BodyTree(reply)));
      Finish(Doc(meta, reply));
    }

    method UpdateDispConfig(a: Arrival)
      requires Valid()
      modifies `docs, m_pLog
      ensures Valid() && View() == Log(old(View()), EVENT_DISPINFO_REQ_ACK, a.ackNow, InfoReply(config))
    {
      hide DocRows, FileRows, Written, BodyTree;
      ghost var meta, rows := Meta(|docs|, EVENT_DISPINFO_REQ_ACK, a.ackNow, counts), FileRows(docs);
      LogReply(EVENT_DISPINFO_REQ_ACK, a.ackNow);
      var reply := InfoReply(config);
      m_pLog.AddDisplayInfoEventStruct(reply.ev, reply.display);
      GrowBody(meta, reply);
      Assoc(rows, DocRows(Doc(meta, NoBody)), Written(1, BodyTree(reply)));
      Finish(Doc(meta, reply));
    }

    method UpdateDispPort(a: Arrival)
      requires Valid()
      modifies `docs, m_pLog
      ensures Valid() && View() == Log(old(View()), EVENT_DISPPORT_REQ_ACK, a.ackNow, PortReply(config))
    {
      hide DocRows, FileRows, Written, BodyTree;
      ghost var meta, rows := Meta(|docs|, EVENT_DISPPORT_REQ_ACK, a.ackNow, counts), FileRows(docs);
      LogReply(EVENT_DISPPORT_REQ_ACK, a.ackNow);
      var reply := PortReply(config);
      m_pLog.AddDisplayPortEventStruct(reply.ev, reply.port);
      GrowBody(meta, reply);
      Assoc(rows, DocRows(Doc(meta, NoBody)), Written(1, BodyTree(reply)));
      Finish(Doc(meta, reply));
    }

    /** The counting and logging that come before the switch. */
    method LogHeader(a: Arrival)
      requires Valid()
      modifies `counts, m_pLog
      ensures View() == Count(old(View()), a.ev)
      ensures Writing(Doc(Meta(|docs|, TranslateEvType(a.ev.kind), a.now, counts),
                HeaderPart(TranslateEvType(a.ev.kind), Some(a.ev))))
    {
      hide DocRows, FileRows, Counted, TranslateEvType;
      var eventType := TranslateEvType(a.ev.kind);
      m_pLog.UpdateEventCount(eventType);
      counts := Counted(counts, eventType);
      m_pLog.LogGenericEventInfo(eventType, a.now, Some(a.ev));
    }

    /** One message through the worker's loop; `alive` is false when it ends the loop. */
    method HandleMessage(a: Arrival) returns (alive: bool)
      requires Valid()
      modifies this, m_pLog
      ensures Valid() && View() == AfterMessage(config, old(View()), a) && started == old(started)
      ensures alive == (a.ev.kind == DISPINFO_REQ ==> Accepts(config, a.ev))
    {
      hide DocRows, FileRows, Counted, Accepts, AfterCreate, AfterRemove, AfterDisplay;
      alive := true;
      LogHeader(a);
      if a.ev.kind == CREATE_BUFFER {
        if a.ev.size == CREATE_SIZE {
          CreateBuffer(a);
        } else {
          Finish(Doc(Meta(|docs|, EVENT_CREATE_BUFFER, a.now, counts), BufferBody(a.ev, None, None, None)));
        }
      } else if a.ev.kind == REMOVE_BUFFER {
        RemoveBuffer(a);
      } else if a.ev.kind == DISPLAY_REQ {
        DisplayRequest(a);
      } else {
        Finish(Doc(Meta(|docs|, TranslateEvType(a.ev.kind), a.now, counts), HeaderBody(a.ev)));
        if a.ev.kind == DISPINFO_REQ {
          if !Accepts(config, a.ev) {
            return false;
          }
          UpdateDispConfig(a);
        } else if a.ev.kind == DISPPORT_REQ {
          UpdateDispPort(a);
        }
      }
    }

    method Start() returns (ok: bool)
      modifies `started
      ensures ok == !old(started) && started
    {
      if started {
        return false;
      }
      started := true;
      return true;
    }

    /** Frees every handle left, in key order, once the worker has ended. */
    method Stop() returns (ok: bool)
      requires Valid()
      modifies this
      ensures Valid() && ok == old(started) && !started
      ensures View() == if old(started) then AfterStop(old(View())) else old(View())
    {
      if !started {
        return false;
      }
      started := false;
      var left := mHandles;
      ghost var before := calls;
      while left.Keys != {}
        invariant mHandles == old(mHandles) && Valid() && docs == old(docs) && counts == old(counts)
                    && nextId == old(nextId)
        invariant !started && calls + ReleaseCalls(left) == before + ReleaseCalls(mHandles)
        decreases |left.Keys|
      {
        var rh := Least(left.Keys);
        var lh := left[rh];
        Release(calls, left);
        calls := calls + [Removed(lh.id)];
        calls := calls + [Freed(lh.id)];
        assert (left - {rh}).Keys == left.Keys - {rh};
        left := left - {rh};
      }
      mHandles := map[];
      return true;
    }
  }

  lemma Release(calls: seq<Call>, left: map<u64, Local>)
    requires left.Keys != {}
    ensures var k := Least(left.Keys);
            calls + ReleaseCalls(left) == calls + [Removed(left[k].id)] + [Freed(left[k].id)] + ReleaseCalls(left - {k})
  {
  }
}
