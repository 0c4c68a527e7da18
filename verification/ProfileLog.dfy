/**
 ProfileLogger: the counters and the file it appends to.  Each method is proved to append the rows of the
 struct's tree, so what a document ends up as can be said by a value.
 */
module ProfileLog {
  import opened Wrappers
  import opened Sequences
  import opened DisplayProtocol
  import opened YmlTree
  import opened LogStructs
  import opened LogFile

  /** UpdateEventCount: a DISPPORT_REQ is counted as a DISPINFO_REQ. */
  function Counted(c: Tally, t: LogEvent): Tally {
    if t == EVENT_CREATE_BUFFER then c.(create := c.create + 1)
    else if t == EVENT_REMOVE_BUFFER then c.(remove := c.remove + 1)
    else if t == EVENT_DISPLAY_REQ then c.(display := c.display + 1)
    else if t == EVENT_DISPINFO_REQ || t == EVENT_DISPPORT_REQ then c.(dispInfo := c.dispInfo + 1)
    else if t == EVENT_CHANGE_RESOLUTION then c.(resolution := c.resolution + 1)
    else if t == EVENT_SET_ALPHA then c.(alpha := c.alpha + 1)
    else c
  }

  /** The body a document starts with: the header, inside a buffer_info_event_t for the three buffer events. */
  function HeaderPart(t: LogEvent, ev: Option<DisplayEvent>): Body {
    if ev.None? then NoBody
    else if t == EVENT_CREATE_BUFFER || t == EVENT_REMOVE_BUFFER || t == EVENT_DISPLAY_REQ then
      BufferBody(ev.value, None, None, None)
    else HeaderBody(ev.value)
  }

  // ----- growing a document -----

  lemma GrowInfo(meta: Meta, ev: DisplayEvent, remote: u64)
    ensures DocRows(Doc(meta, BufferBody(ev, None, None, None))) + Written(2, [BufferInfoTree(remote)])
         == DocRows(Doc(meta, BufferBody(ev, Some(remote), None, None)))
  {
    hide EventTree, BufferInfoTree, MetaTree, Written;
    Deepen(meta, BufferFields(ev, None, None, None), [BufferInfoTree(remote)]);
    assert BufferFields(ev, None, None, None) + [BufferInfoTree(remote)] == BufferFields(ev, Some(remote), None, None);
    assert BodyTree(BufferBody(ev, None, None, None))
             == [Entry(KEY_BUFFER_INFO_EVENT_T, Mapping(BufferFields(ev, None, None, None)))];
  }

  lemma GrowHandle(meta: Meta, ev: DisplayEvent, remote: u64, handle: Gralloc)
    ensures DocRows(Doc(meta, BufferBody(ev, Some(remote), None, None))) + Written(2, [GrallocTree(handle)])
         == DocRows(Doc(meta, BufferBody(ev, Some(remote), Some(handle), None)))
  {
    hide EventTree, BufferInfoTree, GrallocTree, MetaTree, Written;
    Deepen(meta, BufferFields(ev, Some(remote), None, None), [GrallocTree(handle)]);
    assert BufferFields(ev, Some(remote), None, None) + [GrallocTree(handle)]
             == BufferFields(ev, Some(remote), Some(handle), None);
  }

  lemma GrowControl(meta: Meta, ev: DisplayEvent, remote: u64, ctrl: Control)
    ensures DocRows(Doc(meta, BufferBody(ev, Some(remote), None, None))) + Written(2, [ControlTree(ctrl)])
         == DocRows(Doc(meta, BufferBody(ev, Some(remote), None, Some(ctrl))))
  {
    hide EventTree, BufferInfoTree, ControlTree, MetaTree, Written;
    Deepen(meta, BufferFields(ev, Some(remote), None, None), [ControlTree(ctrl)]);
    assert BufferFields(ev, Some(remote), None, None) + [ControlTree(ctrl)]
             == BufferFields(ev, Some(remote), None, Some(ctrl));
  }

  function WithBuffer(meta: Meta, inner: seq<Entry>): seq<Row> {
    Opening(meta.eventId) + Written(0, [Entry(KEY_EVENT,
        Mapping([MetaTree(meta)] + [Entry(KEY_BUFFER_INFO_EVENT_T, Mapping(inner))]))])
  }

  lemma Deepen(meta: Meta, inner: seq<Entry>, more: seq<Entry>)
    ensures WithBuffer(meta, inner) + Written(2, more) == WithBuffer(meta, inner + more)
  {
    hide MetaTree, Written;
    var x, y := Entry(KEY_BUFFER_INFO_EVENT_T, Mapping(inner)), Entry(KEY_BUFFER_INFO_EVENT_T, Mapping(inner + more));
    DocDeepens(meta, KEY_BUFFER_INFO_EVENT_T, inner, more);
    assert [MetaTree(meta)] + [x] == [MetaTree(meta), x] && [MetaTree(meta)] + [y] == [MetaTree(meta), y];
    Assoc(Opening(meta.eventId), Written(0, [Entry(KEY_EVENT, Mapping([MetaTree(meta), x]))]), Written(2, more));
  }

  /** A document opened without a header takes its body one level below "event". */
  lemma GrowBody(meta: Meta, body: Body)
    ensures DocRows(Doc(meta, NoBody)) + Written(1, BodyTree(body)) == DocRows(Doc(meta, body))
  {
    hide MetaTree, Written;
    DocGains(meta, [], BodyTree(body));
    assert [] + BodyTree(body) == BodyTree(body);
    assert BodyTree(NoBody) == [];
    hide BodyTree;
    Assoc(Opening(meta.eventId), Written(0, [Entry(KEY_EVENT, Mapping([MetaTree(meta)] + []))]),
        Written(1, BodyTree(body)));
  }

  lemma WrittenMapping(level: nat, key: Key, inner: seq<Entry>)
    ensures Written(level, [Entry(key, Mapping(inner))]) == [Text(Line(level, key, None))] + Written(level + 1, inner)
  {
    PrintOne(level, Entry(key, Mapping(inner)));
    TextsConcat([Line(level, key, None)], Print(level + 1, inner));
    assert Texts([Line(level, key, None)]) == [Text(Line(level, key, None))];
  }

  lemma WrittenLeaf(level: nat, key: Key, value: Value)
    ensures Written(level, [Entry(key, Leaf(value))]) == [Text(Line(level, key, Some(value)))]
  {
    PrintOne(level, Entry(key, Leaf(value)));
  }

  /** The metadata fields before the counts. */
  function Scalars(id: nat, kind: LogEvent, now: nat): seq<Entry> {
    [Int(KEY_EVENT_ID, id), Entry(KEY_EVENT_NAME, Leaf(Named(EV_NAMES[kind]))),
     Entry(KEY_DIRECTION, Leaf(Named(if IsSendEvent(kind) then Send else Receive))), Int(KEY_TIME_STAMP_US, now)]
  }

  class ProfileLogger {
    var enabled: bool
    var file: seq<Row>
    var reportId: nat
    var counts: Tally

    constructor (enabled: bool)
      ensures this.enabled == enabled && file == [] && reportId == 0 && counts == Tally(0, 0, 0, 0, 0, 0, 0)
    {
      this.enabled, file, reportId, counts := enabled, [], 0, Tally(0, 0, 0, 0, 0, 0, 0);
    }

    /** What a call appends: nothing while the log is off. */
    ghost function Logged(level: nat, entries: seq<Entry>): seq<Row>
      reads `enabled
    {
      if enabled then Written(level, entries) else []
    }

    method WriteYmlLog(level: nat, key: Key, value: Option<Value>)
      modifies `file
      ensures file == old(file) + [Text(Line(level, key, value))]
    {
      file := file + [Text(Line(level, key, value))];
    }

    /** The lines of scalar fields, one write each. */
    method WriteFields(level: nat, fields: seq<Entry>)
      requires Leaves(fields)
      modifies `file
      ensures file == old(file) + Written(level, fields)
    {
      hide Written;
      assert Written(level, []) == [] by {
        WrittenNothing(level);
      }
      ghost var before := file;
      for i := 0 to |fields|
        invariant file == before + Written(level, fields[..i])
      {
        WriteYmlLog(level, fields[i].key, Some(fields[i].node.value));
        WrittenLeaf(level, fields[i].key, fields[i].node.value);
        WrittenConcat(level, fields[..i], [fields[i]]);
        assert fields[..i] + [fields[i]] == fields[..i + 1];
        Assoc(before, Written(level, fields[..i]), Written(level, [fields[i]]));
      }
      assert fields[..|fields|] == fields;
    }

    method AddDisplayEventStruct(ev: DisplayEvent, level: nat)
      modifies `file
      ensures file == old(file) + Logged(level, [EventTree(ev)])
    {
      if !enabled {
        return;
      }
      hide Written, Int, Unsigned, Hex;
      WriteYmlLog(level, KEY_DISPLAY_EVENT_T, None);
      WriteFields(level + 1, Fields(SIZEOF_EVENT, EventFields(ev)));
      WrittenMapping(level, KEY_DISPLAY_EVENT_T, Fields(SIZEOF_EVENT, EventFields(ev)));
    }

    method AddBufferInfoStruct(remote: u64, level: nat)
      modifies `file
      ensures file == old(file) + Logged(level, [BufferInfoTree(remote)])
    {
      if !enabled {
        return;
      }
      hide Written, Int;
      ghost var fields := [Int(KEY_REMOTE_HANDLE, Signed64(remote)), Int(KEY_DATA, 0)];
      WriteYmlLog(level, KEY_BUFFER_INFO_T, None);
      WriteFields(level + 1, Fields(SIZEOF_BUFFER_INFO, [Int(KEY_REMOTE_HANDLE, Signed64(remote)), Int(KEY_DATA, 0)]));
      WrittenMapping(level, KEY_BUFFER_INFO_T, Fields(SIZEOF_BUFFER_INFO, fields));
    }

    method AddNativeHandleStruct(n: NativeHandle, level: nat)
      modifies `file
      ensures file == old(file) + Logged(level, [NativeTree(n)])
    {
      if !enabled {
        return;
      }
      hide Written, Int;
      WriteYmlLog(level, KEY_NATIVE_HANDLE_T, None);
      WriteFields(level + 1, Fields(SIZEOF_NATIVE, NativeFields(n)));
      WrittenMapping(level, KEY_NATIVE_HANDLE_T, Fields(SIZEOF_NATIVE, NativeFields(n)));
    }

    method AddGrallocHandleStruct(h: Gralloc, level: nat)
      modifies `file
      ensures file == old(file) + Logged(level, [GrallocTree(h)])
    {
      if !enabled {
        return;
      }
      assert Leaves([Int(KEY_STRUCT_SIZE, SIZEOF_GRALLOC)]);
      hide Written, Int, Leaves, NativeTree, PlanesFields, ExtentFields, UsageFields, FlagsFields, CodingFields,
          GrallocTree;
      FrontGroupsLeaves(h);
      BackGroupsLeaves(h);
      WriteYmlLog(level, KEY_CROS_GRALLOC_HANDLE_T, None);
      WriteFields(level + 1, [Int(KEY_STRUCT_SIZE, SIZEOF_GRALLOC)]);
      AddNativeHandleStruct(h.base, level + 1);
      WriteFields(level + 1, PlanesFields(h.planes));
      WriteFields(level + 1, ExtentFields(h.extent));
      WriteFields(level + 1, UsageFields(h.usage));
      WriteFields(level + 1, FlagsFields(h.flags));
      WriteFields(level + 1, CodingFields(h.coding));
      GrallocRows(old(file), level, h);
    }

    method AddDisplayControlStruct(c: Control, level: nat)
      modifies `file
      ensures file == old(file) + Logged(level, [ControlTree(c)])
    {
      if !enabled {
        return;
      }
      hide Written, Int, Unsigned;
      var scalars := [Unsigned(KEY_ALPHA, c.alpha), Unsigned(KEY_TOP_LAYER, c.topLayer),
          Unsigned(KEY_ROTATION, c.rotation),
                      Unsigned(KEY_RESERVED, c.reserved)];
      var v := c.viewport;
      WriteYmlLog(level, KEY_DISPLAY_CONTROL_T, None);
      WriteFields(level + 1, Fields(SIZEOF_CONTROL, scalars));
      WriteYmlLog(level + 1, KEY_VIEWPORT, None);
      WriteFields(level + 2, Fields(SIZEOF_VIEWPORT,
          [Int(KEY_LEFT, v.l), Int(KEY_TOP, v.t), Int(KEY_RIGHT, v.r), Int(KEY_BOTTOM, v.b)]));
      ghost var view := Fields(SIZEOF_VIEWPORT, [Int(KEY_LEFT, v.l), Int(KEY_TOP, v.t), Int(KEY_RIGHT, v.r),
          Int(KEY_BOTTOM, v.b)]);
      assert ViewportTree(v) == Entry(KEY_VIEWPORT, Mapping(view));
      assert Fields(SIZEOF_CONTROL, scalars) + [ViewportTree(v)] == Fields(SIZEOF_CONTROL, ControlFields(c));
      hide Fields, ViewportTree, ControlFields;
      NestLast(old(file), level, KEY_DISPLAY_CONTROL_T, Fields(SIZEOF_CONTROL, scalars), KEY_VIEWPORT, view);
    }

    method AddDisplayInfoStruct(d: DisplayInfo, level: nat)
      modifies `file
      ensures file == old(file) + Logged(level, [InfoTree(d)])
    {
      if !enabled {
        return;
      }
      hide Written, Int, Unsigned, Hex, Float;
      WriteYmlLog(level, KEY_DISPLAY_INFO_T, None);
      WriteFields(level + 1, Fields(SIZEOF_INFO, InfoFields(d) + RateFields(d)));
      WrittenMapping(level, KEY_DISPLAY_INFO_T, Fields(SIZEOF_INFO, InfoFields(d) + RateFields(d)));
    }

    method AddDisplayPortStruct(p: DisplayPort, level: nat)
      modifies `file
      ensures file == old(file) + Logged(level, [PortTree(p)])
    {
      if !enabled {
        return;
      }
      hide Written, Int, Unsigned;
      WriteYmlLog(level, KEY_DISPLAY_PORT_T, None);
      WriteFields(level + 1, Fields(SIZEOF_PORT, [Unsigned(KEY_PORT, p.port), Unsigned(KEY_RESERVE, p.reserve)]));
      WrittenMapping(level, KEY_DISPLAY_PORT_T, Fields(SIZEOF_PORT,
          [Unsigned(KEY_PORT, p.port), Unsigned(KEY_RESERVE, p.reserve)]));
    }

    method AddSetVideoAlphaStruct(a: VideoAlpha, level: nat)
      modifies `file
      ensures file == old(file) + Logged(level, [AlphaTree(a)])
    {
      if !enabled {
        return;
      }
      hide Written, Int, Unsigned, Array;
      WriteYmlLog(level, KEY_SET_VIDEO_ALPHA_T, None);
      WriteFields(level + 1, Fields(SIZEOF_ALPHA, [Unsigned(KEY_ENABLE, a.enable), Array(KEY_RESERVED, a.reserved)]));
      WrittenMapping(level, KEY_SET_VIDEO_ALPHA_T, Fields(SIZEOF_ALPHA,
          [Unsigned(KEY_ENABLE, a.enable), Array(KEY_RESERVED, a.reserved)]));
    }

    // The event structs, at level 1 of a document opened without a header.

    method AddBufferInfoEventStruct(ev: DisplayEvent, remote: u64)
      modifies `file
      ensures file == old(file) + Logged(1, BodyTree(BufferBody(ev, Some(remote), None, None)))
    {
      if !enabled {
        return;
      }
      var size := Int(KEY_STRUCT_SIZE, SIZEOF_EVENT + SIZEOF_BUFFER_INFO);
      hide Written, Int, EventTree, BufferInfoTree;
      WriteYmlLog(1, KEY_BUFFER_INFO_EVENT_T, None);
      WriteFields(2, [size]);
      AddDisplayEventStruct(ev, 2);
      AddBufferInfoStruct(remote, 2);
      NestThree(old(file), 1, KEY_BUFFER_INFO_EVENT_T, size, EventTree(ev), BufferInfoTree(remote));
      assert [size, EventTree(ev), BufferInfoTree(remote)] == BufferFields(ev, Some(remote), None, None);
    }

    method AddDisplayInfoEventStruct(ev: DisplayEvent, d: DisplayInfo)
      modifies `file
      ensures file == old(file) + Logged(1, BodyTree(InfoBody(ev, d)))
    {
      if !enabled {
        return;
      }
      var size := Int(KEY_STRUCT_SIZE, SIZEOF_EVENT + SIZEOF_INFO);
      hide Written, Int, EventTree, InfoTree, Struct;
      WriteYmlLog(1, KEY_DISPLAY_INFO_EVENT_T, None);
      WriteFields(2, [size]);
      AddDisplayEventStruct(ev, 2);
      AddDisplayInfoStruct(d, 2);
      NestPair(old(file), KEY_DISPLAY_INFO_EVENT_T, SIZEOF_EVENT + SIZEOF_INFO, ev, InfoTree(d));
    }

    method AddDisplayPortEventStruct(ev: DisplayEvent, p: DisplayPort)
      modifies `file
      ensures file == old(file) + Logged(1, BodyTree(PortBody(ev, p)))
    {
      if !enabled {
        return;
      }
      var size := Int(KEY_STRUCT_SIZE, SIZEOF_EVENT + SIZEOF_PORT);
      hide Written, Int, EventTree, PortTree, Struct;
      WriteYmlLog(1, KEY_DISPLAY_PORT_EVENT_T, None);
      WriteFields(2, [size]);
      AddDisplayEventStruct(ev, 2);
      AddDisplayPortStruct(p, 2);
      NestPair(old(file), KEY_DISPLAY_PORT_EVENT_T, SIZEOF_EVENT + SIZEOF_PORT, ev, PortTree(p));
    }

    method AddVideoAlphaEventStruct(ev: DisplayEvent, a: VideoAlpha)
      modifies `file
      ensures file == old(file) + Logged(1, BodyTree(AlphaBody(ev, a)))
    {
      if !enabled {
        return;
      }
      var size := Int(KEY_STRUCT_SIZE, SIZEOF_EVENT + SIZEOF_ALPHA);
      hide Written, Int, EventTree, AlphaTree, Struct;
      WriteYmlLog(1, KEY_DISPLAY_SET_VIDEO_ALPHA_EVENT_T, None);
      WriteFields(2, [size]);
      AddDisplayEventStruct(ev, 2);
      AddSetVideoAlphaStruct(a, 2);
      NestPair(old(file), KEY_DISPLAY_SET_VIDEO_ALPHA_EVENT_T, SIZEOF_EVENT + SIZEOF_ALPHA, ev, AlphaTree(a));
    }

    // The start of a document.

    method UpdateEventCount(t: LogEvent)
      modifies `counts
      ensures counts == if enabled then Counted(old(counts), t) else old(counts)
    {
      if !enabled {
        return;
      }
      if t == EVENT_CREATE_BUFFER {
        counts := counts.(create := counts.create + 1);
      } else if t == EVENT_REMOVE_BUFFER {
        counts := counts.(remove := counts.remove + 1);
      } else if t == EVENT_DISPLAY_REQ {
        counts := counts.(display := counts.display + 1);
      } else if t == EVENT_DISPINFO_REQ {
        counts := counts.(dispInfo := counts.dispInfo + 1);
      } else if t == EVENT_DISPPORT_REQ {
        counts := counts.(dispInfo := counts.dispInfo + 1);
      } else if t == EVENT_CHANGE_RESOLUTION {
        counts := counts.(resolution := counts.resolution + 1);
      } else if t == EVENT_SET_ALPHA {
        counts := counts.(alpha := counts.alpha + 1);
      }
    }

    method CheckProtocolBufferInfoEvent(t: LogEvent) returns (level: nat)
      modifies `file
      ensures var buffer := t in {EVENT_CREATE_BUFFER, EVENT_REMOVE_BUFFER, EVENT_DISPLAY_REQ};
              && level == (if buffer then 2 else 1)
              && file == old(file) + if buffer then BufferHead() else []
    {
      hide Written, Int;
      level := 1;
      if t == EVENT_CREATE_BUFFER || t == EVENT_REMOVE_BUFFER || t == EVENT_DISPLAY_REQ {
        WriteYmlLog(1, KEY_BUFFER_INFO_EVENT_T, None);
        WriteFields(2, [Int(KEY_STRUCT_SIZE, 24)]);
        WrittenMapping(1, KEY_BUFFER_INFO_EVENT_T, [Int(KEY_STRUCT_SIZE, 24)]);
        level := level + 1;
      }
    }

    method LogGenericEventInfo(t: LogEvent, now: nat, ev: Option<DisplayEvent>)
      modifies `file, `reportId
      ensures enabled ==> file == old(file) + DocRows(Doc(Meta(old(reportId), t, now, counts), HeaderPart(t, ev)))
      ensures !enabled ==> file == old(file)
      ensures reportId == old(reportId) + if enabled then 1 else 0
    {
      if !enabled {
        return;
      }
      hide Written, Int, EventTree, DocRows, BufferHead;
      ghost var meta := Meta(reportId, t, now, counts);
      WriteMetadata(t, now);
      if ev.Some? {
        var level := CheckProtocolBufferInfoEvent(t);
        AddDisplayEventStruct(ev.value, level);
        HeaderRows(old(file), meta, ev.value);
      }
    }

    /** setMode's document, and below setVideoAlpha's; the mutex around them is modelled with the threads. */
    method LogChangeResolutionEvent(now: nat, ev: DisplayEvent, d: DisplayInfo)
      modifies `file, `reportId, `counts
      ensures enabled ==>
                && counts == Counted(old(counts), EVENT_CHANGE_RESOLUTION) && reportId == old(reportId) + 1
                && file == old(file) + DocRows(Doc(Meta(old(reportId), EVENT_CHANGE_RESOLUTION, now, counts),
                     InfoBody(ev, d)))
      ensures !enabled ==> file == old(file) && reportId == old(reportId) && counts == old(counts)
    {
      hide Written, DocRows, BodyTree;
      UpdateEventCount(EVENT_CHANGE_RESOLUTION);
      LogGenericEventInfo(EVENT_CHANGE_RESOLUTION, now, None);
      AddDisplayInfoEventStruct(ev, d);
      ghost var meta := Meta(old(reportId), EVENT_CHANGE_RESOLUTION, now, counts);
      GrowBody(meta, InfoBody(ev, d));
      Assoc(old(file), DocRows(Doc(meta, NoBody)), Written(1, BodyTree(InfoBody(ev, d))));
    }

    method LogSetAlphaEvent(now: nat, ev: DisplayEvent, a: VideoAlpha)
      modifies `file, `reportId, `counts
      ensures enabled ==>
                && counts == Counted(old(counts), EVENT_SET_ALPHA) && reportId == old(reportId) + 1
                && file == old(file) + DocRows(Doc(Meta(old(reportId), EVENT_SET_ALPHA, now, counts), AlphaBody(ev, a)))
      ensures !enabled ==> file == old(file) && reportId == old(reportId) && counts == old(counts)
    {
      hide Written, DocRows, BodyTree;
      UpdateEventCount(EVENT_SET_ALPHA);
      LogGenericEventInfo(EVENT_SET_ALPHA, now, None);
      AddVideoAlphaEventStruct(ev, a);
      ghost var meta := Meta(old(reportId), EVENT_SET_ALPHA, now, counts);
      GrowBody(meta, AlphaBody(ev, a));
      Assoc(old(file), DocRows(Doc(meta, NoBody)), Written(1, BodyTree(AlphaBody(ev, a))));
    }

    /** The document markers, "event:" and the metadata. */
    method WriteMetadata(t: LogEvent, now: nat)
      modifies `file, `reportId
      ensures file == old(file) + DocRows(Doc(Meta(old(reportId), t, now, counts), NoBody))
      ensures reportId == old(reportId) + 1
    {
      hide Written, Int;
      if reportId != 0 {
        file := file + [End];
      }
      file := file + [Start];
      WriteYmlLog(0, KEY_EVENT, None);
      WriteYmlLog(1, KEY_METADATA, None);
      var scalars := Scalars(reportId, t, now);
      WriteFields(2, scalars);
      WriteYmlLog(2, KEY_COUNTS, None);
      WriteFields(3, TallyFields(counts));
      ghost var meta := Meta(reportId, t, now, counts);
      assert scalars + [Entry(KEY_COUNTS, Mapping(TallyFields(counts)))] == MetaFields(meta);
      hide TallyFields, MetaFields, EV_NAMES;
      MetadataRows(old(file), meta, scalars);
      reportId := reportId + 1;
    }
  }

  lemma WrittenNothing(level: nat)
    ensures Written(level, []) == []
  {
  }

  lemma WrittenEight(file: seq<Row>, level: nat, size: Entry, native: Entry, p: seq<Entry>, x: seq<Entry>,
      u: seq<Entry>,
                     f: seq<Entry>, c: seq<Entry>)
    ensures file + Written(level, [size]) + Written(level, [native]) + Written(level, p) + Written(level, x)
            + Written(level, u) + Written(level, f) + Written(level, c)
         == file + Written(level, [size] + ([native] + p + x + u + f + c))
  {
    hide Written;
    Appends(file, level, [], [size]);
    AppendTwo(file, level, [size], [native]);
    AppendTwo(file, level, [size] + [native], p);
    AppendTwo(file, level, [size] + [native] + p, x);
    AppendTwo(file, level, [size] + [native] + p + x, u);
    AppendTwo(file, level, [size] + [native] + p + x + u, f);
    AppendTwo(file, level, [size] + [native] + p + x + u + f, c);
    Regroup([size], [native], p, x, u, f, c);
  }

  lemma GrallocRows(file: seq<Row>, level: nat, h: Gralloc)
    ensures file + [Text(Line(level, KEY_CROS_GRALLOC_HANDLE_T, None))]
              + Written(level + 1, [Int(KEY_STRUCT_SIZE, SIZEOF_GRALLOC)])
            + Written(level + 1, [NativeTree(h.base)]) + Written(level + 1, PlanesFields(h.planes))
            + Written(level + 1, ExtentFields(h.extent)) + Written(level + 1, UsageFields(h.usage))
            + Written(level + 1, FlagsFields(h.flags)) + Written(level + 1, CodingFields(h.coding))
         == file + Written(level, [GrallocTree(h)])
  {
    hide Written, Int, NativeTree, PlanesFields, ExtentFields, UsageFields, FlagsFields, CodingFields;
    var line := [Text(Line(level, KEY_CROS_GRALLOC_HANDLE_T, None))];
    WrittenEight(file + line, level + 1, Int(KEY_STRUCT_SIZE, SIZEOF_GRALLOC), NativeTree(h.base),
        PlanesFields(h.planes),
                 ExtentFields(h.extent), UsageFields(h.usage), FlagsFields(h.flags), CodingFields(h.coding));
    WrittenMapping(level, KEY_CROS_GRALLOC_HANDLE_T, Fields(SIZEOF_GRALLOC, GrallocFields(h)));
    Assoc(file, line, Written(level + 1, Fields(SIZEOF_GRALLOC, GrallocFields(h))));
  }

  lemma Regroup(s: seq<Entry>, n: seq<Entry>, p: seq<Entry>, x: seq<Entry>, u: seq<Entry>, f: seq<Entry>, c: seq<Entry>)
    ensures s + n + p + x + u + f + c == s + (n + p + x + u + f + c)
  {
  }

  lemma AppendTwo(file: seq<Row>, level: nat, a: seq<Entry>, b: seq<Entry>)
    ensures file + Written(level, a) + Written(level, b) == file + Written(level, a + b)
  {
    hide Written;
    WrittenConcat(level, a, b);
    Assoc(file, Written(level, a), Written(level, b));
  }

  lemma Appends(file: seq<Row>, level: nat, a: seq<Entry>, b: seq<Entry>)
    requires a == []
    ensures file + Written(level, b) == file + Written(level, a + b)
  {
    assert a + b == b;
  }

  /** A mapping written line by line, its last entry a mapping too. */
  lemma NestLast(file: seq<Row>, level: nat, key: Key, fields: seq<Entry>, inner: Key, more: seq<Entry>)
    ensures file + [Text(Line(level, key, None))] + Written(level + 1, fields) + [Text(Line(level + 1, inner, None))]
            + Written(level + 2, more)
         == file + Written(level, [Entry(key, Mapping(fields + [Entry(inner, Mapping(more))]))])
  {
    hide Written;
    var last := Entry(inner, Mapping(more));
    var line, line2 := [Text(Line(level, key, None))], [Text(Line(level + 1, inner, None))];
    WrittenMapping(level + 1, inner, more);
    Assoc(file + line + Written(level + 1, fields), line2, Written(level + 2, more));
    AppendTwo(file + line, level + 1, fields, [last]);
    WrittenMapping(level, key, fields + [last]);
    Assoc(file, line, Written(level + 1, fields + [last]));
  }

  lemma NestThree(file: seq<Row>, level: nat, key: Key, a: Entry, b: Entry, c: Entry)
    ensures file + [Text(Line(level, key, None))] + Written(level + 1, [a]) + Written(level + 1, [b])
              + Written(level + 1, [c])
         == file + Written(level, [Entry(key, Mapping([a, b, c]))])
  {
    hide Written;
    var line := [Text(Line(level, key, None))];
    AppendTwo(file + line, level + 1, [a], [b]);
    AppendTwo(file + line, level + 1, [a] + [b], [c]);
    assert [a] + [b] + [c] == [a, b, c];
    WrittenMapping(level, key, [a, b, c]);
    Assoc(file, line, Written(level + 1, [a, b, c]));
  }

  lemma NestPair(file: seq<Row>, key: Key, size: nat, ev: DisplayEvent, second: Entry)
    ensures file + [Text(Line(1, key, None))] + Written(2, [Int(KEY_STRUCT_SIZE, size)]) + Written(2, [EventTree(ev)])
            + Written(2, [second])
         == file + Written(1, [Struct(key, size, [EventTree(ev), second])])
  {
    hide Written, Int, EventTree;
    NestThree(file, 1, key, Int(KEY_STRUCT_SIZE, size), EventTree(ev), second);
    assert [Int(KEY_STRUCT_SIZE, size), EventTree(ev), second] == Fields(size, [EventTree(ev), second]);
  }

  lemma GrowHeader(meta: Meta, ev: DisplayEvent)
    ensures DocRows(Doc(meta, NoBody)) + Written(1, [EventTree(ev)]) == DocRows(Doc(meta, HeaderBody(ev)))
    ensures DocRows(Doc(meta, NoBody)) + (BufferHead() + Written(2, [EventTree(ev)]))
         == DocRows(Doc(meta, BufferBody(ev, None, None, None)))
  {
    hide EventTree, Written, Int, DocRows;
    GrowBody(meta, HeaderBody(ev));
    GrowBody(meta, BufferBody(ev, None, None, None));
    WrittenExtends(1, KEY_BUFFER_INFO_EVENT_T, [Int(KEY_STRUCT_SIZE, 24)], [EventTree(ev)]);
    assert [Int(KEY_STRUCT_SIZE, 24)] + [EventTree(ev)] == BufferFields(ev, None, None, None);
  }

  function BufferHead(): seq<Row> {
    Written(1, [Entry(KEY_BUFFER_INFO_EVENT_T, Mapping([Int(KEY_STRUCT_SIZE, 24)]))])
  }

  lemma HeaderRows(file: seq<Row>, meta: Meta, ev: DisplayEvent)
    ensures file + DocRows(Doc(meta, NoBody)) + [] + Written(1, [EventTree(ev)])
              == file + DocRows(Doc(meta, HeaderBody(ev)))
    ensures file + DocRows(Doc(meta, NoBody)) + BufferHead() + Written(2, [EventTree(ev)])
         == file + DocRows(Doc(meta, BufferBody(ev, None, None, None)))
  {
    hide EventTree, Written, Int, DocRows;
    var d, head := DocRows(Doc(meta, NoBody)), BufferHead();
    GrowHeader(meta, ev);
    hide BufferHead;
    assert file + d + [] == file + d;
    Assoc(file, d, Written(1, [EventTree(ev)]));
    Assoc(file, d, head);
    Assoc(file, d + head, Written(2, [EventTree(ev)]));
    Assoc(d, head, Written(2, [EventTree(ev)]));
  }

  /** The lines WriteMetadata appends are those of a document without a body. */
  lemma MetadataRows(file: seq<Row>, meta: Meta, scalars: seq<Entry>)
    requires scalars + [Entry(KEY_COUNTS, Mapping(TallyFields(meta.counts)))] == MetaFields(meta)
    ensures (if meta.eventId != 0 then file + [End] else file) + [Start] + [Text(Line(0, KEY_EVENT, None))]
            + [Text(Line(1, KEY_METADATA, None))] + Written(2, scalars) + [Text(Line(2, KEY_COUNTS, None))]
            + Written(3, TallyFields(meta.counts))
         == file + DocRows(Doc(meta, NoBody))
  {
    hide Written, TallyFields, MetaFields;
    var f := (if meta.eventId != 0 then file + [End] else file) + [Start];
    var line := [Text(Line(0, KEY_EVENT, None))];
    assert f == file + Opening(meta.eventId);
    NestLast(f + line, 1, KEY_METADATA, scalars, KEY_COUNTS, TallyFields(meta.counts));
    WrittenMapping(0, KEY_EVENT, [MetaTree(meta)]);
    Assoc(f, line, Written(1, [MetaTree(meta)]));
    assert [MetaTree(meta)] + BodyTree(NoBody) == [MetaTree(meta)];
    Assoc(file, Opening(meta.eventId), Written(0, DocTree(Doc(meta, NoBody))));
  }
}
