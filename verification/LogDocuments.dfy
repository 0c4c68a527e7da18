/**
 CmdHandler::DecodeNode over a whole document, and what it makes of each document the logger writes.
 */
module LogDocuments {
  import opened Wrappers
  import opened DisplayProtocol
  import opened YmlTree
  import opened LogStructs
  import opened LogDecode
  import opened LogRoundTrip
  import opened LogEvents

  // ----- metadata -----

  function GetEventCode(w: Word): u32 {
    match w
    case DispInfoReq => DISPINFO_REQ
    case DispInfoAck => DISPINFO_ACK
    case CreateBuffer => CREATE_BUFFER
    case RemoveBuffer => REMOVE_BUFFER
    case DisplayReq => DISPLAY_REQ
    case DisplayAck => DISPLAY_ACK
    case ServerIpReq => SERVER_IP_REQ
    case ServerIpAck => SERVER_IP_ACK
    case ServerIpSet => SERVER_IP_SET
    case DispPortReq => DISPPORT_REQ
    case DispPortAck => DISPPORT_ACK
    case SetupResolution => SETUP_RESOLUTION
    case _ => 0
  }

  /**
   The name an event is logged under gives its code back for every event the logger knows except
   SET_VIDEO_ALPHA_REQ, which like every unknown event comes back as 0.
   */
  lemma EventNameBack(kind: u32)
    ensures var code := GetEventCode(EV_NAMES[TranslateEvType(kind)]);
            && (TranslateEvType(kind) !in {EVENT_SET_ALPHA, EVENT_UNKNOWN} ==> code == kind)
            && (TranslateEvType(kind) in {EVENT_SET_ALPHA, EVENT_UNKNOWN} ==> code == 0)
            && (code == kind <==> kind == 0 || TranslateEvType(kind) !in {EVENT_SET_ALPHA, EVENT_UNKNOWN})
  {
  }

  datatype Way = Sending | Receiving | Unknown

  /** The log says "send" and "receive" from the receiver's side; the emulator plays the other side. */
  function Flipped(w: Option<Word>): Way {
    match w
    case Some(Send) => Receiving
    case Some(Receive) => Sending
    case _ => Unknown
  }

  datatype Metadata = Metadata(eventId: u32, code: u32, way: Way, time: u64, counts: Tally)

  function DecodeTally(e: seq<Entry>): Option<Tally> {
    var create :- AsU32(e, KEY_CREATE_BUFFER_EVENTS);
    var remove :- AsU32(e, KEY_REMOVE_BUFFER_EVENTS);
    var display :- AsU32(e, KEY_DISPLAY_REQ_EVENTS);
    var resolution :- AsU32(e, KEY_CHANGE_RESOLUTION_EVENTS);
    var dispInfo :- AsU32(e, KEY_DISP_INFO_REQ_EVENTS);
    var dispPort :- AsU32(e, KEY_DISP_PORT_REQ_EVENTS);
    var alpha :- AsU32(e, KEY_SET_ALPHA_EVENTS);
    Some(Tally(create, remove, display, resolution, dispInfo, dispPort, alpha))
  }

  /** The metadata of a document that has all five entries; None if a number throws. */
  function DecodeMeta(e: seq<Entry>): Option<Metadata> {
    var eventId :- AsU32(e, KEY_EVENT_ID);
    var time :- AsU64(e, KEY_TIME_STAMP_US);
    var inside :- AsMap(e, KEY_COUNTS);
    var counts :- DecodeTally(inside);
    var name := AsWord(e, KEY_EVENT_NAME);
    var code := if name.Some? then GetEventCode(name.value) else 0;
    Some(Metadata(eventId, code, Flipped(AsWord(e, KEY_DIRECTION)), time, counts))
  }

  predicate SmallTally(c: Tally) {
    && c.create < MAX_I32 && c.remove < MAX_I32 && c.display < MAX_I32 && c.resolution < MAX_I32
    && c.dispInfo < MAX_I32 && c.dispPort < MAX_I32 && c.alpha < MAX_I32
  }

  /** The counters are C ints that have not overflowed, the time fits a long. */
  predicate SmallMeta(m: Meta) {
    m.eventId < MAX_I32 && m.time < MAX_I64 && SmallTally(m.counts)
  }

  lemma TallyKeys(c: Tally)
    ensures Ascending(TallyFields(c)) && TallyFields(c)[0].key == KEY_CREATE_BUFFER_EVENTS
  {
    hide Int;
  }

  lemma CountIn(g: seq<Entry>, j: nat, key: Key, n: nat)
    requires j < |g| && Ascending(g) && g[j] == Int(key, n) && n < MAX_I32
    ensures AsU32(g, key) == Some(n)
  {
    hide Below, Ascending;
    assert [] + g + [] == g;
    assert Below([], g[0].key) by {
      BelowNothing(g[0].key);
    }
    MagicIn([], g, [], j, key, n);
  }

  lemma BelowNothing(code: nat)
    ensures Below([], code)
  {
  }

  lemma TallyBack(c: Tally)
    requires SmallTally(c)
    ensures DecodeTally(TallyFields(c)) == Some(c)
  {
    TallyKeys(c);
    var g := TallyFields(c);
    hide Int, AsU32, Ascending;
    CountIn(g, 0, KEY_CREATE_BUFFER_EVENTS, c.create);
    CountIn(g, 1, KEY_REMOVE_BUFFER_EVENTS, c.remove);
    CountIn(g, 2, KEY_DISPLAY_REQ_EVENTS, c.display);
    CountIn(g, 3, KEY_CHANGE_RESOLUTION_EVENTS, c.resolution);
    CountIn(g, 4, KEY_DISP_INFO_REQ_EVENTS, c.dispInfo);
    CountIn(g, 5, KEY_DISP_PORT_REQ_EVENTS, c.dispPort);
    CountIn(g, 6, KEY_SET_ALPHA_EVENTS, c.alpha);
  }

  lemma MetaKeys(m: Meta)
    ensures Ascending(MetaFields(m))
    ensures Absent(MetaFields(m)[..1], KEY_EVENT_NAME) && Absent(MetaFields(m)[..2], KEY_DIRECTION)
    ensures Absent(MetaFields(m)[..3], KEY_TIME_STAMP_US) && Absent(MetaFields(m)[..4], KEY_COUNTS)
  {
    hide Int, TallyFields;
  }

  function MetadataOf(m: Meta): Metadata
    requires SmallMeta(m)
  {
    var way := if IsSendEvent(m.kind) then Receiving else Sending;
    Metadata(m.eventId, GetEventCode(EV_NAMES[m.kind]), way, m.time, m.counts)
  }

  lemma WordAt(e: seq<Entry>, k: nat, key: Key, w: Word)
    requires k < |e| && e[k] == Entry(key, Leaf(Named(w))) && Absent(e[..k], key)
    ensures AsWord(e, key) == Some(w)
  {
    LookupAt(e, k);
  }

  /** All metadata comes back, the direction flipped. */
  lemma MetaBack(m: Meta)
    requires SmallMeta(m)
    ensures DecodeMeta(MetaFields(m)) == Some(MetadataOf(m))
  {
    hide Int, AsU32, AsU64, AsWord, AsMap, Ascending, Absent, TallyFields, DecodeTally, GetEventCode, SmallTally;
    MetaKeys(m);
    TallyBack(m.counts);
    var g := MetaFields(m);
    CountIn(g, 0, KEY_EVENT_ID, m.eventId);
    WordAt(g, 1, KEY_EVENT_NAME, EV_NAMES[m.kind]);
    WordAt(g, 2, KEY_DIRECTION, if IsSendEvent(m.kind) then Send else Receive);
    TimeAt(g, m.time);
    MapAt(g, 4, KEY_COUNTS, TallyFields(m.counts));
  }

  lemma TimeAt(g: seq<Entry>, time: nat)
    requires |g| > 3 && g[3] == Int(KEY_TIME_STAMP_US, time) && Absent(g[..3], KEY_TIME_STAMP_US) && time < MAX_I64
    ensures AsU64(g, KEY_TIME_STAMP_US) == Some(time)
  {
    hide Int, AsInt, Absent;
    IntAt(g, 3, KEY_TIME_STAMP_US, time, 0, MAX_U64);
  }

  // ----- a document -----

  const NO_EVENT := DisplayEvent(0, 0, 0, 0)
  const NO_PLANES := Planes([0, 0, 0, 0], [0, 0, 0, 0], [0, 0, 0, 0], [0, 0, 0, 0], [0, 0, 0, 0, 0, 0, 0, 0])
  const NO_HANDLE := Gralloc(NativeHandle(0, 0, 0), NO_PLANES, Extent(0, 0, 0, 0, [0, 0]), Usage(0, 0, 0, 0, 0, 0, 0),
                             Flags(0, 0, 0, 0, 0, 0), Coding(0, 0, 0, 0, 0))

  /** What DecodeNode pushes; the structs of ACKs, which nobody looks at, are left out. */
  datatype Payload =
    | Nothing
    | EventPayload(ev: DisplayEvent)
    | CreatePayload(ev: DisplayEvent, remote: u64, handle: Gralloc)
    | BufferPayload(ev: DisplayEvent, remote: u64, ctrl: Option<Control>)
    | AckPayload

  datatype Parsed = Exception | Parsed(code: u32, way: Way, payload: Payload)

  /** A decode function's result put into a zeroed struct; None if it threw. */
  function Filled<T>(d: Decoded<T>, zero: T): Option<T> {
    match d
    case Threw => None
    case Refused => Some(zero)
    case Decoded(v) => Some(v)
  }

  function DecodeEventNode(node: Option<Node>): Decoded<DisplayEvent> {
    match node
    case Some(Mapping(e)) => (var ev := DecodeEvent(e); if ev.Some? then Decoded(ev.value) else Threw)
    case _ => Refused
  }

  datatype BufferInfo = BufferInfo(ev: DisplayEvent, remote: u64)

  function DecodeBufferInfoEvent(node: Option<Node>): Decoded<BufferInfo> {
    match node
    case Some(Mapping(e)) =>
      var event, info := AsMap(e, KEY_DISPLAY_EVENT_T), AsMap(e, KEY_BUFFER_INFO_T);
      if event.None? || info.None? then Refused
      else
        var ev, remote := DecodeEvent(event.value), DecodeBufferInfo(info.value);
        if ev.Some? && remote.Some? then Decoded(BufferInfo(ev.value, remote.value)) else Threw
    case _ => Refused
  }

  /** display_info_event_t and display_port_event_t, of which only the exceptions matter. */
  predicate InfoEventThrows(node: Option<Node>) {
    match node
    case Some(Mapping(e)) =>
      var event, info := AsMap(e, KEY_DISPLAY_EVENT_T), AsMap(e, KEY_DISPLAY_INFO_T);
      event.Some? && info.Some? && (DecodeEvent(event.value).None? || DecodeInfo(info.value).None?)
    case _ => false
  }

  predicate PortEventThrows(node: Option<Node>) {
    match node
    case Some(Mapping(e)) =>
      var event, port := AsMap(e, KEY_DISPLAY_EVENT_T), AsMap(e, KEY_DISPLAY_PORT_T);
      event.Some? && port.Some? && (DecodeEvent(event.value).None? || DecodePort(port.value).None?)
    case _ => false
  }

  /** DISPLAY_REQ carries controls when its size leaves room for exactly them. */
  predicate HasControl(ev: DisplayEvent) {
    ev.size == SIZEOF_EVENT + SIZEOF_BUFFER_INFO + SIZEOF_CONTROL
  }

  function Child(node: Option<Node>, key: Key): Option<Node> {
    match node
    case Some(Mapping(e)) => Lookup(e, key)
    case _ => None
  }

  /** The payload of an event's entries; None if a decode function threw. */
  function DecodePayload(code: u32, e: seq<Entry>): Option<Payload> {
    var buffer := Lookup(e, KEY_BUFFER_INFO_EVENT_T);
    if code == DISPINFO_REQ || code == DISPPORT_REQ then
      var ev :- Filled(DecodeEventNode(Lookup(e, KEY_DISPLAY_EVENT_T)), NO_EVENT);
      Some(EventPayload(ev))
    else if code == DISPINFO_ACK || code == SETUP_RESOLUTION then
      if InfoEventThrows(Lookup(e, KEY_DISPLAY_INFO_EVENT_T)) then None else Some(AckPayload)
    else if code == CREATE_BUFFER then
      var b :- Filled(DecodeBufferInfoEvent(buffer), BufferInfo(NO_EVENT, 0));
      var handle :- Filled(DecodeGralloc(Child(buffer, KEY_CROS_GRALLOC_HANDLE_T)), NO_HANDLE);
      Some(CreatePayload(b.ev, b.remote, handle))
    else if code == REMOVE_BUFFER || code == DISPLAY_ACK then
      var b :- Filled(DecodeBufferInfoEvent(buffer), BufferInfo(NO_EVENT, 0));
      Some(if code == DISPLAY_ACK then AckPayload else BufferPayload(b.ev, b.remote, None))
    else if code == DISPLAY_REQ then
      var b :- Filled(DecodeBufferInfoEvent(buffer), BufferInfo(NO_EVENT, 0));
      if !HasControl(b.ev) then Some(BufferPayload(b.ev, b.remote, None))
      else
        var c := DecodeControl(Lookup(e, KEY_DISPLAY_CONTROL_T));
        if c.Threw? then None
        else Some(BufferPayload(b.ev, b.remote, if c.Decoded? then Some(c.value) else None))
    else if code == DISPPORT_ACK then
      if PortEventThrows(Lookup(e, KEY_DISPLAY_PORT_EVENT_T)) then None else Some(AckPayload)
    else Some(Nothing)
  }

  /** SET_VIDEO_ALPHA_REQ has a case in DecodeNode too, but GetEventCode never gives its code. */
  function DecodeNode(root: seq<Entry>): Parsed {
    var event := AsMap(root, KEY_EVENT);
    if event.None? then Parsed(0, Unknown, Nothing)
    else
      var inside := AsMap(event.value, KEY_METADATA);
      if inside.None? then Parsed(0, Unknown, Nothing)
      else
        var meta := DecodeMeta(inside.value);
        if meta.None? then Exception
        else
          var payload := DecodePayload(meta.value.code, event.value);
          if payload.None? then Exception else Parsed(meta.value.code, meta.value.way, payload.value)
  }

  // ----- what comes back from the logger's documents -----

  /** The body a document of this kind is logged with: of a received header, or of a struct sent. */
  predicate Fits(d: Doc) {
    if d.meta.kind in {EVENT_CREATE_BUFFER, EVENT_REMOVE_BUFFER, EVENT_DISPLAY_REQ} then
      d.body.BufferBody? && (d.body.handle.Some? ==> d.body.info.Some?)
    else
      || d.body.HeaderBody?
      || (d.meta.kind == EVENT_DISPLAY_REQ_ACK && d.body.BufferBody? && d.body.info.Some?)
      || (d.meta.kind in {EVENT_DISPINFO_REQ_ACK, EVENT_CHANGE_RESOLUTION} && d.body.InfoBody?)
      || (d.meta.kind == EVENT_DISPPORT_REQ_ACK && d.body.PortBody?)
      || (d.meta.kind == EVENT_SET_ALPHA && d.body.AlphaBody?)
  }

  predicate SmallBuffer(b: Body)
    requires b.BufferBody?
  {
    b.info.Some? ==> SmallEvent(b.ev) && b.info.value < MAX_I64
  }

  /** Nothing that the decoder reads of this document is out of the range it reads back. */
  predicate Readable(d: Doc)
    requires Fits(d)
  {
    match d.meta.kind
    case 1 => SmallBuffer(d.body) && (d.body.handle.Some? ==> SmallGralloc(d.body.handle.value))
    case 2 => SmallBuffer(d.body)
    case 3 => SmallBuffer(d.body)
    case 4 => SmallEvent(d.body.ev)
    case 5 => SmallEvent(d.body.ev)
    case 6 => d.body.BufferBody? ==> SmallBuffer(d.body)
    case 7 => d.body.InfoBody? ==> SmallEvent(d.body.ev) && SmallInfo(d.body.display)
    case 8 => d.body.PortBody? ==> SmallEvent(d.body.ev) && SmallPort(d.body.port)
    case 9 => d.body.InfoBody? ==> SmallEvent(d.body.ev) && SmallInfo(d.body.display)
    case _ => true
  }

  function BufferOf(b: Body): BufferInfo
    requires b.BufferBody?
  {
    if b.info.Some? then BufferInfo(b.ev, b.info.value) else BufferInfo(NO_EVENT, 0)
  }

  /** The payload of a readable document; display controls are lost. */
  function PayloadOf(d: Doc): Payload
    requires Fits(d)
  {
    match d.meta.kind
    case 1 => CreatePayload(BufferOf(d.body).ev, BufferOf(d.body).remote,
                            if d.body.handle.Some? then d.body.handle.value else NO_HANDLE)
    case 2 => BufferPayload(BufferOf(d.body).ev, BufferOf(d.body).remote, None)
    case 3 => BufferPayload(BufferOf(d.body).ev, BufferOf(d.body).remote, None)
    case 4 => EventPayload(d.body.ev)
    case 5 => EventPayload(d.body.ev)
    case 6 => AckPayload
    case 7 => AckPayload
    case 8 => AckPayload
    case 9 => AckPayload
    case _ => Nothing
  }

  lemma EventNodeBack(ev: DisplayEvent)
    ensures EventTree(ev).key == KEY_DISPLAY_EVENT_T && EventTree(ev).node.Mapping?
    ensures DecodeEvent(EventTree(ev).node.entries) == if SmallEvent(ev) then Some(ev) else None
  {
    EventBack(ev);
    hide EventFields, DecodeEvent, Fields;
  }

  /** The parts of a logged buffer_info_event_t, found by key. */
  lemma BufferParts(b: Body)
    requires b.BufferBody?
    ensures var e := BufferFields(b.ev, b.info, b.handle, b.ctrl);
            && AsMap(e, KEY_DISPLAY_EVENT_T) == Some(EventTree(b.ev).node.entries)
            && (b.info.Some? ==> AsMap(e, KEY_BUFFER_INFO_T) == Some(BufferInfoTree(b.info.value).node.entries))
            && (b.info.None? ==> AsMap(e, KEY_BUFFER_INFO_T) == None)
            && (b.info.Some? && b.handle.Some? ==>
                  Lookup(e, KEY_CROS_GRALLOC_HANDLE_T) == Some(GrallocTree(b.handle.value).node))
            && (b.handle.None? ==> Lookup(e, KEY_CROS_GRALLOC_HANDLE_T) == None)
  {
    hide Int, EventFields, Fields, GrallocFields, ControlFields;
    var e := BufferFields(b.ev, b.info, b.handle, b.ctrl);
    MapAt(e, 1, KEY_DISPLAY_EVENT_T, EventTree(b.ev).node.entries);
    if b.info.Some? {
      MapAt(e, 2, KEY_BUFFER_INFO_T, BufferInfoTree(b.info.value).node.entries);
    } else {
      LookupAbsent(e, KEY_BUFFER_INFO_T);
    }
    if b.info.Some? && b.handle.Some? {
      LookupAt(e, 3);
    }
    if b.handle.None? {
      LookupAbsent(e, KEY_CROS_GRALLOC_HANDLE_T);
    }
  }

  function BufferNode(b: Body): Option<Node>
    requires b.BufferBody?
  {
    Some(Mapping(BufferFields(b.ev, b.info, b.handle, b.ctrl)))
  }

  lemma NoInfoRefused(b: Body)
    requires b.BufferBody? && b.info.None?
    ensures DecodeBufferInfoEvent(BufferNode(b)) == Refused
  {
    hide BufferFields, DecodeEvent, DecodeBufferInfo, AsMap, Lookup, EventTree;
    BufferParts(b);
  }

  lemma InfoDecodes(b: Body)
    requires b.BufferBody? && b.info.Some?
    ensures DecodeBufferInfoEvent(BufferNode(b))
         == if SmallEvent(b.ev) && b.info.value < MAX_I64 then Decoded(BufferInfo(b.ev, b.info.value)) else Threw
  {
    hide BufferFields, DecodeEvent, DecodeBufferInfo, AsMap, Lookup, EventTree, BufferInfoTree, SmallEvent;
    BufferParts(b);
    EventNodeBack(b.ev);
    BufferInfoBack(b.info.value);
  }

  lemma BufferBack(b: Body)
    requires b.BufferBody?
    ensures Filled(DecodeBufferInfoEvent(BufferNode(b)), BufferInfo(NO_EVENT, 0))
         == if SmallBuffer(b) then Some(BufferOf(b)) else None
  {
    hide DecodeBufferInfoEvent, BufferNode, SmallEvent;
    if b.info.None? {
      NoInfoRefused(b);
    } else {
      InfoDecodes(b);
    }
  }

  lemma HandleBack(b: Body)
    requires b.BufferBody? && (b.handle.Some? ==> b.info.Some?)
    ensures Filled(DecodeGralloc(Child(BufferNode(b), KEY_CROS_GRALLOC_HANDLE_T)), NO_HANDLE)
         == if b.handle.None? then Some(NO_HANDLE) else if SmallGralloc(b.handle.value) then Some(b.handle.value)
             else None
  {
    hide EventTree, BufferInfoTree, BufferFields, GrallocTree, SmallGralloc;
    BufferParts(b);
    if b.handle.Some? {
      GrallocBack(b.handle.value);
    } else {
      hide Lookup;
      assert DecodeGralloc(None) == Refused;
    }
  }

  /** The entries under "event". */
  function EventEntries(d: Doc): seq<Entry> {
    [MetaTree(d.meta)] + BodyTree(d.body)
  }

  lemma BodyFound(d: Doc, key: Key)
    requires key != KEY_METADATA
    ensures Lookup(EventEntries(d), key)
         == if d.body.NoBody? || BodyTree(d.body)[0].key != key then None else Some(BodyTree(d.body)[0].node)
  {
    var e, b := EventEntries(d), BodyTree(d.body);
    hide MetaFields, EventFields, BufferFields, Fields;
    assert |b| <= 1 && (b == [] <==> d.body.NoBody?);
    hide BodyTree;
    LookupAfter([MetaTree(d.meta)], b, key);
    if b != [] {
      if b[0].key == key {
        LookupAt(b, 0);
      } else {
        LookupAbsent(b, key);
      }
    }
  }

  lemma BufferPayloadBack(d: Doc)
    requires Fits(d) && d.meta.kind in {EVENT_CREATE_BUFFER, EVENT_REMOVE_BUFFER, EVENT_DISPLAY_REQ}
    ensures DecodePayload(GetEventCode(EV_NAMES[d.meta.kind]), EventEntries(d))
         == if Readable(d) then Some(PayloadOf(d)) else None
  {
    hide MetaTree, BufferFields, DecodeBufferInfoEvent, DecodeGralloc, Lookup, SmallGralloc, SmallBuffer, EventEntries;
    BodyFound(d, KEY_BUFFER_INFO_EVENT_T);
    BodyFound(d, KEY_DISPLAY_CONTROL_T);
    BufferBack(d.body);
    HandleBack(d.body);
    assert Lookup(EventEntries(d), KEY_BUFFER_INFO_EVENT_T) == BufferNode(d.body);
    assert DecodeControl(Lookup(EventEntries(d), KEY_DISPLAY_CONTROL_T)) == Refused;
  }

  lemma HeaderPayloadBack(d: Doc)
    requires Fits(d) && d.meta.kind in {EVENT_DISPINFO_REQ, EVENT_DISPPORT_REQ}
    ensures DecodePayload(GetEventCode(EV_NAMES[d.meta.kind]), EventEntries(d))
         == if Readable(d) then Some(PayloadOf(d)) else None
  {
    hide MetaTree, EventFields, DecodeEvent, Lookup, SmallEvent, EventEntries;
    BodyFound(d, KEY_DISPLAY_EVENT_T);
    EventNodeBack(d.body.ev);
  }

  /** The two structs inside a logged display_info_event_t or display_port_event_t. */
  lemma TwoParts(size: nat, ev: DisplayEvent, second: Entry, key: Key)
    requires second.key == key && key != KEY_STRUCT_SIZE && key != KEY_DISPLAY_EVENT_T && second.node.Mapping?
    ensures var e := Fields(size, [EventTree(ev), second]);
            && AsMap(e, KEY_DISPLAY_EVENT_T) == Some(EventTree(ev).node.entries)
            && AsMap(e, key) == Some(second.node.entries)
  {
    hide Int, EventFields;
    var e := Fields(size, [EventTree(ev), second]);
    MapAt(e, 1, KEY_DISPLAY_EVENT_T, EventTree(ev).node.entries);
    MapAt(e, 2, key, second.node.entries);
  }

  lemma InfoEventBack(ev: DisplayEvent, d: DisplayInfo)
    ensures var node := Struct(KEY_DISPLAY_INFO_EVENT_T, SIZEOF_EVENT + SIZEOF_INFO, [EventTree(ev), InfoTree(d)]).node;
            InfoEventThrows(Some(node)) <==> !(SmallEvent(ev) && SmallInfo(d))
  {
    hide EventTree, InfoFields, RateFields, DecodeEvent, DecodeInfo, AsMap, SmallEvent, SmallInfo;
    TwoParts(SIZEOF_EVENT + SIZEOF_INFO, ev, InfoTree(d), KEY_DISPLAY_INFO_T);
    EventNodeBack(ev);
    InfoBack(d);
    hide Fields;
  }

  lemma PortEventBack(ev: DisplayEvent, p: DisplayPort)
    ensures var node := Struct(KEY_DISPLAY_PORT_EVENT_T, SIZEOF_EVENT + SIZEOF_PORT, [EventTree(ev), PortTree(p)]).node;
            PortEventThrows(Some(node)) <==> !(SmallEvent(ev) && SmallPort(p))
  {
    PortBack(p);
    assert PortTree(p).key == KEY_DISPLAY_PORT_T;
    hide EventTree, PortTree, DecodeEvent, DecodePort, AsMap, SmallEvent, SmallPort;
    TwoParts(SIZEOF_EVENT + SIZEOF_PORT, ev, PortTree(p), KEY_DISPLAY_PORT_T);
    EventNodeBack(ev);
    hide Fields;
  }

  lemma AckPayloadBack(d: Doc)
    requires Fits(d) && d.meta.kind >= SEND_EVENTS_START
    ensures DecodePayload(GetEventCode(EV_NAMES[d.meta.kind]), EventEntries(d))
         == if Readable(d) then Some(PayloadOf(d)) else None
  {
    hide MetaTree, EventTree, InfoTree, PortTree, BufferFields, Fields, DecodeBufferInfoEvent, Lookup, SmallEvent,
        SmallInfo;
    hide SmallPort, SmallBuffer, EventEntries, InfoEventThrows, PortEventThrows;
    AckParts(d);
    if d.body.BufferBody? {
      BufferBack(d.body);
    }
    if d.body.InfoBody? {
      InfoEventBack(d.body.ev, d.body.display);
    }
    if d.body.PortBody? {
      PortEventBack(d.body.ev, d.body.port);
    }
  }

  lemma AckParts(d: Doc)
    requires Fits(d) && d.meta.kind >= SEND_EVENTS_START
    ensures var e := EventEntries(d);
            && (d.body.BufferBody? ==> Lookup(e, KEY_BUFFER_INFO_EVENT_T) == BufferNode(d.body))
            && (!d.body.BufferBody? ==> DecodeBufferInfoEvent(Lookup(e, KEY_BUFFER_INFO_EVENT_T)) == Refused)
            && (d.body.InfoBody? ==> Lookup(e, KEY_DISPLAY_INFO_EVENT_T) == Some(BodyTree(d.body)[0].node))
            && (!d.body.InfoBody? ==> !InfoEventThrows(Lookup(e, KEY_DISPLAY_INFO_EVENT_T)))
            && (d.body.PortBody? ==> Lookup(e, KEY_DISPLAY_PORT_EVENT_T) == Some(BodyTree(d.body)[0].node))
            && (!d.body.PortBody? ==> !PortEventThrows(Lookup(e, KEY_DISPLAY_PORT_EVENT_T)))
  {
    hide EventFields, BufferFields, Fields, Lookup, EventEntries;
    BodyFound(d, KEY_BUFFER_INFO_EVENT_T);
    BodyFound(d, KEY_DISPLAY_INFO_EVENT_T);
    BodyFound(d, KEY_DISPLAY_PORT_EVENT_T);
  }

  lemma MetaFound(d: Doc)
    ensures AsMap(DocTree(d), KEY_EVENT) == Some(EventEntries(d))
    ensures AsMap(EventEntries(d), KEY_METADATA) == Some(MetaFields(d.meta))
  {
    hide MetaFields, BodyTree;
    MapAt(DocTree(d), 0, KEY_EVENT, EventEntries(d));
    MapAt(EventEntries(d), 0, KEY_METADATA, MetaFields(d.meta));
  }

  /**
   Every document the logger writes, read back: the event's code under its name, the direction flipped, and the
   structs logged, exactly when the fields looked at are in range; otherwise the parser throws.
   */
  lemma DocumentBack(d: Doc)
    requires Fits(d) && SmallMeta(d.meta)
    ensures DecodeNode(DocTree(d))
         == if Readable(d) then
              Parsed(GetEventCode(EV_NAMES[d.meta.kind]), if IsSendEvent(d.meta.kind) then Receiving else Sending,
                     PayloadOf(d))
            else Exception
  {
    hide MetaFields, EventEntries, DocTree, DecodeMeta, DecodePayload, AsMap, Readable, PayloadOf, Fits;
    MetaFound(d);
    MetaBack(d.meta);
    if d.meta.kind in {EVENT_CREATE_BUFFER, EVENT_REMOVE_BUFFER, EVENT_DISPLAY_REQ} {
      BufferPayloadBack(d);
    } else if d.meta.kind >= SEND_EVENTS_START {
      AckPayloadBack(d);
    } else if d.meta.kind in {EVENT_DISPINFO_REQ, EVENT_DISPPORT_REQ} {
      HeaderPayloadBack(d);
    } else {
      InitializePayloadBack(d);
    }
  }

  lemma InitializePayloadBack(d: Doc)
    requires Fits(d) && d.meta.kind == 0
    ensures DecodePayload(GetEventCode(EV_NAMES[0]), EventEntries(d)) == Some(Nothing) && Readable(d)
              && PayloadOf(d) == Nothing
  {
    hide Lookup, EventEntries;
  }

  /** Display controls, logged two levels down, are never found: the document reads as if it had none. */
  lemma ControlsAreLost(d: Doc)
    requires Fits(d) && SmallMeta(d.meta) && d.meta.kind == EVENT_DISPLAY_REQ
    ensures var without := d.(body := d.body.(ctrl := None));
            DecodeNode(DocTree(d)) == DecodeNode(DocTree(without))
  {
    var without := d.(body := d.body.(ctrl := None));
    hide DecodeNode, DocTree, SmallEvent, SmallBuffer;
    DocumentBack(d);
    DocumentBack(without);
  }
}
