/** The trees ProfileLogger writes for the structs of the display protocol, with its printf conversions. */
module LogStructs {
  import opened Wrappers
  import opened Text
  import opened DisplayProtocol
  import opened YmlTree
  import opened YmlScalars

  /** "key: %d" */
  function Int(key: Key, n: int): (e: Entry)
    ensures e.key == key && e.node.Leaf?
  {
    Entry(key, Leaf(Plain(Dec(n))))
  }

  /** "key: %d" of an unsigned field. */
  function Unsigned(key: Key, n: u32): (e: Entry)
    ensures e.key == key && e.node.Leaf?
  {
    Int(key, Signed32(n))
  }

  /** "key: 0x%X" */
  function Hex(key: Key, n: u32): (e: Entry)
    ensures e.key == key && e.node.Leaf?
  {
    Entry(key, Leaf(Plain(HexText(n))))
  }

  /** "key: %s" of an array, its elements read as ints. */
  function Array(key: Key, a: seq<int>): (e: Entry)
    requires |a| > 0
    ensures e.key == key && e.node.Leaf?
  {
    Entry(key, Leaf(Plain(ArrayText(AsSigned(a)))))
  }

  function AsSigned(a: seq<int>): (s: seq<int>)
    ensures |s| == |a| && forall i :: 0 <= i < |a| ==> s[i] == Signed32(a[i])
  {
    seq(|a|, i requires 0 <= i < |a| => Signed32(a[i]))
  }

  /** "key: %f" */
  function Float(key: Key, text: string): (e: Entry)
    ensures e.key == key && e.node.Leaf?
  {
    Entry(key, Leaf(Plain(text)))
  }

  function Struct(key: Key, size: nat, fields: seq<Entry>): (e: Entry)
    ensures e.key == key
  {
    Entry(key, Mapping(Fields(size, fields)))
  }

  /** The entries of a struct: its size, then its fields. */
  function Fields(size: nat, fields: seq<Entry>): seq<Entry> {
    [Int(KEY_STRUCT_SIZE, size)] + fields
  }

  // ----- display_event_t and what is built on it -----

  function EventFields(ev: DisplayEvent): seq<Entry> {
    [Hex(KEY_TYPE, ev.kind), Unsigned(KEY_SIZE, ev.size), Unsigned(KEY_ID, ev.id),
     Unsigned(KEY_RENDER_NODE, ev.renderNode)]
  }

  function EventTree(ev: DisplayEvent): Entry {
    Struct(KEY_DISPLAY_EVENT_T, SIZEOF_EVENT, EventFields(ev))
  }

  function BufferInfoTree(remote: u64): Entry {
    Struct(KEY_BUFFER_INFO_T, SIZEOF_BUFFER_INFO, [Int(KEY_REMOTE_HANDLE, Signed64(remote)), Int(KEY_DATA, 0)])
  }

  function InfoFields(d: DisplayInfo): seq<Entry> {
    [Hex(KEY_FLAGS, d.flags), Unsigned(KEY_WIDTH, d.width), Unsigned(KEY_HEIGHT, d.height), Int(KEY_STRIDE, d.stride),
     Int(KEY_FORMAT, d.format)]
  }

  function RateFields(d: DisplayInfo): seq<Entry> {
    [Float(KEY_XDPI, d.xdpi), Float(KEY_YDPI, d.ydpi), Float(KEY_FPS, d.fps),
     Int(KEY_MIN_SWAP_INTERVAL, d.minSwapInterval),
     Int(KEY_MAX_SWAP_INTERVAL, d.maxSwapInterval), Int(KEY_NUM_FRAMEBUFFERS, d.numFramebuffers)]
  }

  function InfoTree(d: DisplayInfo): Entry {
    Struct(KEY_DISPLAY_INFO_T, SIZEOF_INFO, InfoFields(d) + RateFields(d))
  }

  function PortTree(p: DisplayPort): Entry {
    Struct(KEY_DISPLAY_PORT_T, SIZEOF_PORT, [Unsigned(KEY_PORT, p.port), Unsigned(KEY_RESERVE, p.reserve)])
  }

  function AlphaTree(a: VideoAlpha): Entry {
    Struct(KEY_SET_VIDEO_ALPHA_T, SIZEOF_ALPHA, [Unsigned(KEY_ENABLE, a.enable), Array(KEY_RESERVED, a.reserved)])
  }

  function ViewportTree(v: Viewport): Entry {
    Struct(KEY_VIEWPORT, SIZEOF_VIEWPORT,
           [Int(KEY_LEFT, v.l), Int(KEY_TOP, v.t), Int(KEY_RIGHT, v.r), Int(KEY_BOTTOM, v.b)])
  }

  function ControlFields(c: Control): seq<Entry> {
    [Unsigned(KEY_ALPHA, c.alpha), Unsigned(KEY_TOP_LAYER, c.topLayer), Unsigned(KEY_ROTATION, c.rotation),
     Unsigned(KEY_RESERVED, c.reserved), ViewportTree(c.viewport)]
  }

  function ControlTree(c: Control): Entry {
    Struct(KEY_DISPLAY_CONTROL_T, SIZEOF_CONTROL, ControlFields(c))
  }

  // ----- cros_gralloc_handle -----

  function NativeFields(n: NativeHandle): seq<Entry> {
    [Int(KEY_VERSION, n.version), Int(KEY_NUM_FDS, n.numFds), Int(KEY_NUM_INTS, n.numInts), Int(KEY_DATA, 0)]
  }

  function NativeTree(n: NativeHandle): Entry {
    Struct(KEY_NATIVE_HANDLE_T, SIZEOF_NATIVE, NativeFields(n))
  }

  function PlanesFields(p: Planes): seq<Entry> {
    [Array(KEY_FDS, p.fds), Array(KEY_STRIDES, p.strides), Array(KEY_OFFSETS, p.offsets), Array(KEY_SIZES, p.sizes),
     Array(KEY_FORMAT_MODIFIERS, p.formatModifiers)]
  }

  function ExtentFields(x: Extent): seq<Entry> {
    [Unsigned(KEY_WIDTH, x.width), Unsigned(KEY_HEIGHT, x.height), Unsigned(KEY_FORMAT, x.format),
     Unsigned(KEY_TILING_MODE, x.tilingMode), Array(KEY_USE_FLAGS, x.useFlags)]
  }

  /** The magic number alone is printed with %u. */
  function UsageFields(u: Usage): seq<Entry> {
    [Int(KEY_MAGIC, u.magic), Unsigned(KEY_PIXEL_STRIDE, u.pixelStride), Int(KEY_DROID_FORMAT, u.droidFormat),
     Int(KEY_USAGE, u.usage),
     Unsigned(KEY_CONSUMER_USAGE, u.consumerUsage), Unsigned(KEY_PRODUCER_USAGE, u.producerUsage),
     Unsigned(KEY_YUV_COLOR_RANGE, u.yuvColorRange)]
  }

  function FlagsFields(f: Flags): seq<Entry> {
    [Unsigned(KEY_IS_UPDATED, f.isUpdated), Unsigned(KEY_IS_ENCODED, f.isEncoded),
     Unsigned(KEY_IS_ENCRYPTED, f.isEncrypted), Unsigned(KEY_IS_KEY_FRAME, f.isKeyFrame),
     Unsigned(KEY_IS_INTERLACED, f.isInterlaced), Unsigned(KEY_IS_MMC_CAPABLE, f.isMmcCapable)]
  }

  function CodingFields(c: Coding): seq<Entry> {
    [Unsigned(KEY_COMPRESSION_MODE, c.compressionMode), Unsigned(KEY_COMPRESSION_HINT, c.compressionHint),
     Unsigned(KEY_CODEC, c.codec),
     Unsigned(KEY_ALIGNED_WIDTH, c.alignedWidth), Unsigned(KEY_ALIGNED_HEIGHT, c.alignedHeight)]
  }

  function GrallocFields(h: Gralloc): seq<Entry> {
    [NativeTree(h.base)] + PlanesFields(h.planes) + ExtentFields(h.extent) + UsageFields(h.usage)
    + FlagsFields(h.flags) + CodingFields(h.coding)
  }

  function GrallocTree(h: Gralloc): Entry {
    Struct(KEY_CROS_GRALLOC_HANDLE_T, SIZEOF_GRALLOC, GrallocFields(h))
  }

  // ----- a document -----

  const EVENT_CREATE_BUFFER := 1
  const EVENT_REMOVE_BUFFER := 2
  const EVENT_DISPLAY_REQ := 3
  const EVENT_DISPINFO_REQ := 4
  const EVENT_DISPPORT_REQ := 5
  const EVENT_DISPLAY_REQ_ACK := 6
  const EVENT_DISPINFO_REQ_ACK := 7
  const EVENT_DISPPORT_REQ_ACK := 8
  const EVENT_CHANGE_RESOLUTION := 9
  const EVENT_SET_ALPHA := 10
  const EVENT_UNKNOWN := 11
  const SEND_EVENTS_START := 6

  type LogEvent = t: nat | t <= EVENT_UNKNOWN

  /** evNames, indexed by log_event_t. */
  const EV_NAMES: seq<Word> := [EventInitialize, CreateBuffer, RemoveBuffer, DisplayReq, DispInfoReq, DispPortReq,
                                DisplayAck, DispInfoAck, DispPortAck, SetupResolution, SetVideoAlphaReq, EventUnknown]

  function TranslateEvType(kind: u32): LogEvent {
    if kind == DISPINFO_REQ then EVENT_DISPINFO_REQ
    else if kind == DISPINFO_ACK then EVENT_DISPINFO_REQ_ACK
    else if kind == CREATE_BUFFER then EVENT_CREATE_BUFFER
    else if kind == REMOVE_BUFFER then EVENT_REMOVE_BUFFER
    else if kind == DISPLAY_REQ then EVENT_DISPLAY_REQ
    else if kind == DISPLAY_ACK then EVENT_DISPLAY_REQ_ACK
    else if kind == DISPPORT_REQ then EVENT_DISPPORT_REQ
    else if kind == DISPPORT_ACK then EVENT_DISPPORT_REQ_ACK
    else if kind == SETUP_RESOLUTION then EVENT_CHANGE_RESOLUTION
    else if kind == SET_VIDEO_ALPHA_REQ then EVENT_SET_ALPHA
    else EVENT_UNKNOWN
  }

  predicate IsSendEvent(t: LogEvent) {
    t >= SEND_EVENTS_START
  }

  /** The logger's counters, in the order they are printed. */
  datatype Tally = Tally(create: nat, remove: nat, display: nat, resolution: nat, dispInfo: nat, dispPort: nat,
                         alpha: nat)

  function TallyFields(c: Tally): seq<Entry> {
    [Int(KEY_CREATE_BUFFER_EVENTS, c.create), Int(KEY_REMOVE_BUFFER_EVENTS, c.remove),
     Int(KEY_DISPLAY_REQ_EVENTS, c.display), Int(KEY_CHANGE_RESOLUTION_EVENTS, c.resolution),
     Int(KEY_DISP_INFO_REQ_EVENTS, c.dispInfo), Int(KEY_DISP_PORT_REQ_EVENTS, c.dispPort),
     Int(KEY_SET_ALPHA_EVENTS, c.alpha)]
  }

  datatype Meta = Meta(eventId: nat, kind: LogEvent, time: nat, counts: Tally)

  function MetaFields(m: Meta): seq<Entry> {
    [Int(KEY_EVENT_ID, m.eventId), Entry(KEY_EVENT_NAME, Leaf(Named(EV_NAMES[m.kind]))),
     Entry(KEY_DIRECTION, Leaf(Named(if IsSendEvent(m.kind) then Send else Receive))), Int(KEY_TIME_STAMP_US, m.time),
     Entry(KEY_COUNTS, Mapping(TallyFields(m.counts)))]
  }

  function MetaTree(m: Meta): Entry {
    Entry(KEY_METADATA, Mapping(MetaFields(m)))
  }

  /** What follows the metadata. */
  datatype Body =
    | NoBody
    | HeaderBody(ev: DisplayEvent)
    | BufferBody(ev: DisplayEvent, info: Option<u64>, handle: Option<Gralloc>, ctrl: Option<Control>)
    | InfoBody(ev: DisplayEvent, display: DisplayInfo)
    | PortBody(ev: DisplayEvent, port: DisplayPort)
    | AlphaBody(ev: DisplayEvent, alpha: VideoAlpha)

  function BufferFields(ev: DisplayEvent, info: Option<u64>, handle: Option<Gralloc>,
      ctrl: Option<Control>): seq<Entry> {
    [Int(KEY_STRUCT_SIZE, SIZEOF_EVENT + SIZEOF_BUFFER_INFO), EventTree(ev)]
    + (if info.Some? then [BufferInfoTree(info.value)] else [])
    + (if handle.Some? then [GrallocTree(handle.value)] else [])
    + (if ctrl.Some? then [ControlTree(ctrl.value)] else [])
  }

  function BodyTree(b: Body): seq<Entry> {
    match b
    case NoBody => []
    case HeaderBody(ev) => [EventTree(ev)]
    case BufferBody(ev, info, handle, ctrl) => [Entry(KEY_BUFFER_INFO_EVENT_T,
        Mapping(BufferFields(ev, info, handle, ctrl)))]
    case InfoBody(ev, d) => [Struct(KEY_DISPLAY_INFO_EVENT_T, SIZEOF_EVENT + SIZEOF_INFO, [EventTree(ev), InfoTree(d)])]
    case PortBody(ev, p) => [Struct(KEY_DISPLAY_PORT_EVENT_T, SIZEOF_EVENT + SIZEOF_PORT, [EventTree(ev), PortTree(p)])]
    case AlphaBody(ev, a) =>
      [Struct(KEY_DISPLAY_SET_VIDEO_ALPHA_EVENT_T, SIZEOF_EVENT + SIZEOF_ALPHA, [EventTree(ev), AlphaTree(a)])]
  }

  datatype Doc = Doc(meta: Meta, body: Body)

  function DocTree(d: Doc): seq<Entry> {
    [Entry(KEY_EVENT, Mapping([MetaTree(d.meta)] + BodyTree(d.body)))]
  }
}
