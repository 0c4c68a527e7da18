/**
 The other decode functions of YmlParser, and CmdHandler::DecodeNode over a whole document: what comes back
 from any document the logger writes.
 */
module LogEvents {
  import opened Wrappers
  import opened DisplayProtocol
  import opened YmlTree
  import opened LogStructs
  import opened LogDecode
  import opened LogRoundTrip

  // ----- display_event_t and buffer_info_t -----

  function DecodeEvent(e: seq<Entry>): Option<DisplayEvent> {
    var kind :- AsU32(e, KEY_TYPE);
    var size :- AsU32(e, KEY_SIZE);
    var id :- AsU32(e, KEY_ID);
    var renderNode :- AsU32(e, KEY_RENDER_NODE);
    Some(DisplayEvent(kind, size, id, renderNode))
  }

  /** The type is printed in hexadecimal, so any type comes back. */
  predicate SmallEvent(ev: DisplayEvent) {
    ev.size < MAX_I32 && ev.id < MAX_I32 && ev.renderNode < MAX_I32
  }

  lemma EventKeys(ev: DisplayEvent)
    ensures Ascending(EventFields(ev)) && EventFields(ev)[0].key == KEY_TYPE
  {
    hide Hex, Unsigned;
  }

  lemma EventBack(ev: DisplayEvent)
    ensures DecodeEvent(Fields(SIZEOF_EVENT, EventFields(ev))) == if SmallEvent(ev) then Some(ev) else None
  {
    EventKeys(ev);
    var g := EventFields(ev);
    var pre := [Int(KEY_STRUCT_SIZE, SIZEOF_EVENT)];
    SizeFirst(SIZEOF_EVENT, g, KEY_TYPE);
    hide Int, Unsigned, Hex, AsU32, Below, Ascending, Fields;
    HexIn(pre, g, [], 0, KEY_TYPE, ev.kind);
    UnsignedIn(pre, g, [], 1, KEY_SIZE, ev.size);
    UnsignedIn(pre, g, [], 2, KEY_ID, ev.id);
    UnsignedIn(pre, g, [], 3, KEY_RENDER_NODE, ev.renderNode);
  }

  function DecodeBufferInfo(e: seq<Entry>): Option<u64> {
    AsU64(e, KEY_REMOTE_HANDLE)
  }

  const MAX_I64 := 0x8000_0000_0000_0000

  lemma BufferInfoBack(remote: u64)
    ensures BufferInfoTree(remote).node.Mapping?
    ensures DecodeBufferInfo(BufferInfoTree(remote).node.entries) == if remote < MAX_I64 then Some(remote) else None
  {
    var e := BufferInfoTree(remote).node.entries;
    assert e[1] == Int(KEY_REMOTE_HANDLE, Signed64(remote)) && Absent(e[..1], KEY_REMOTE_HANDLE);
    hide Int, AsInt;
    IntAt(e, 1, KEY_REMOTE_HANDLE, Signed64(remote), 0, MAX_U64);
  }

  // ----- display_info_t, display_port_t, set_video_alpha_t, display_control_t -----

  function DecodeInfo(e: seq<Entry>): Option<DisplayInfo> {
    var flags :- AsU32(e, KEY_FLAGS);
    var width :- AsU32(e, KEY_WIDTH);
    var height :- AsU32(e, KEY_HEIGHT);
    var stride :- AsI32(e, KEY_STRIDE);
    var format :- AsI32(e, KEY_FORMAT);
    var xdpi :- AsFloat(e, KEY_XDPI);
    var ydpi :- AsFloat(e, KEY_YDPI);
    var fps :- AsFloat(e, KEY_FPS);
    var minSwapInterval :- AsI32(e, KEY_MIN_SWAP_INTERVAL);
    var maxSwapInterval :- AsI32(e, KEY_MAX_SWAP_INTERVAL);
    var numFramebuffers :- AsI32(e, KEY_NUM_FRAMEBUFFERS);
    Some(DisplayInfo(flags, width, height, stride, format, xdpi, ydpi, fps, minSwapInterval, maxSwapInterval,
        numFramebuffers))
  }

  predicate SmallInfo(d: DisplayInfo) {
    d.width < MAX_I32 && d.height < MAX_I32
  }

  lemma InfoKeys(d: DisplayInfo)
    ensures var g := InfoFields(d) + RateFields(d); Ascending(g) && g[0].key == KEY_FLAGS
  {
    hide Int, Unsigned, Hex, Float;
  }

  lemma FloatIn(pre: seq<Entry>, g: seq<Entry>, post: seq<Entry>, j: nat, key: Key, text: string)
    requires j < |g| && Ascending(g) && Below(pre, g[0].key) && g[j] == Float(key, text)
    ensures AsFloat(pre + g + post, key) == Some(text)
  {
    hide Ascending, Below, Absent, Lookup;
    Within(pre, g, post, j);
    LookupAt(pre + g + post, |pre| + j);
  }

  lemma InfoBack(d: DisplayInfo)
    ensures DecodeInfo(Fields(SIZEOF_INFO, InfoFields(d) + RateFields(d))) == if SmallInfo(d) then Some(d) else None
  {
    InfoKeys(d);
    var g := InfoFields(d) + RateFields(d);
    var pre := [Int(KEY_STRUCT_SIZE, SIZEOF_INFO)];
    SizeFirst(SIZEOF_INFO, g, KEY_FLAGS);
    hide Int, Unsigned, Hex, Float, AsU32, AsI32, AsFloat, Below, Ascending, Fields;
    HexIn(pre, g, [], 0, KEY_FLAGS, d.flags);
    UnsignedIn(pre, g, [], 1, KEY_WIDTH, d.width);
    UnsignedIn(pre, g, [], 2, KEY_HEIGHT, d.height);
    SignedIn(pre, g, [], 3, KEY_STRIDE, d.stride);
    SignedIn(pre, g, [], 4, KEY_FORMAT, d.format);
    FloatIn(pre, g, [], 5, KEY_XDPI, d.xdpi);
    FloatIn(pre, g, [], 6, KEY_YDPI, d.ydpi);
    FloatIn(pre, g, [], 7, KEY_FPS, d.fps);
    SignedIn(pre, g, [], 8, KEY_MIN_SWAP_INTERVAL, d.minSwapInterval);
    SignedIn(pre, g, [], 9, KEY_MAX_SWAP_INTERVAL, d.maxSwapInterval);
    SignedIn(pre, g, [], 10, KEY_NUM_FRAMEBUFFERS, d.numFramebuffers);
  }

  function DecodePort(e: seq<Entry>): Option<DisplayPort> {
    var port :- AsU32(e, KEY_PORT);
    var reserve :- AsU32(e, KEY_RESERVE);
    Some(DisplayPort(port, reserve))
  }

  predicate SmallPort(p: DisplayPort) {
    p.port < MAX_I32 && p.reserve < MAX_I32
  }

  lemma PortBack(p: DisplayPort)
    ensures PortTree(p).node.Mapping? && DecodePort(PortTree(p).node.entries) == if SmallPort(p) then Some(p) else None
  {
    hide Int, Unsigned, AsU32;
    var g := [Unsigned(KEY_PORT, p.port), Unsigned(KEY_RESERVE, p.reserve)];
    var pre := [Int(KEY_STRUCT_SIZE, SIZEOF_PORT)];
    assert pre + g + [] == PortTree(p).node.entries;
    UnsignedIn(pre, g, [], 0, KEY_PORT, p.port);
    UnsignedIn(pre, g, [], 1, KEY_RESERVE, p.reserve);
  }

  function DecodeAlpha(e: seq<Entry>): Option<VideoAlpha> {
    var enable :- AsU32(e, KEY_ENABLE);
    var reserved :- AsU32s(e, KEY_RESERVED, 3);
    Some(VideoAlpha(enable, reserved))
  }

  lemma AlphaBack(a: VideoAlpha)
    ensures AlphaTree(a).node.Mapping?
    ensures DecodeAlpha(AlphaTree(a).node.entries) == if a.enable < MAX_I32 && Small(a.reserved) then Some(a) else None
  {
    hide Int, Unsigned, Array, AsU32, AsU32s;
    var g := [Unsigned(KEY_ENABLE, a.enable), Array(KEY_RESERVED, a.reserved)];
    var pre := [Int(KEY_STRUCT_SIZE, SIZEOF_ALPHA)];
    assert pre + g + [] == AlphaTree(a).node.entries;
    UnsignedIn(pre, g, [], 0, KEY_ENABLE, a.enable);
    UnsignedsIn(pre, g, [], 1, KEY_RESERVED, a.reserved);
  }

  function DecodeViewport(e: seq<Entry>): Option<Viewport> {
    var l :- AsI16(e, KEY_LEFT);
    var t :- AsI16(e, KEY_TOP);
    var r :- AsI16(e, KEY_RIGHT);
    var b :- AsI16(e, KEY_BOTTOM);
    Some(Viewport(l, t, r, b))
  }

  /** Assignment to bit fields. */
  function Masked(alpha: u32, topLayer: u32, rotation: u32, reserved: u32, viewport: Viewport): Control {
    Control(alpha % 2, topLayer % 2, rotation % 4, reserved % 0x1000_0000, viewport)
  }

  function DecodeControl(node: Option<Node>): Decoded<Control> {
    match node
    case Some(Mapping(e)) =>
      var viewport := AsMap(e, KEY_VIEWPORT);
      if viewport.None? then Refused
      else
        var alpha, topLayer := AsU32(e, KEY_ALPHA), AsU32(e, KEY_TOP_LAYER);
        var rotation, reserved := AsU32(e, KEY_ROTATION), AsU32(e, KEY_RESERVED);
        var v := DecodeViewport(viewport.value);
        if alpha.Some? && topLayer.Some? && rotation.Some? && reserved.Some? && v.Some? then
          Decoded(Masked(alpha.value, topLayer.value, rotation.value, reserved.value, v.value))
        else Threw
    case _ => Refused
  }

  lemma ShortIn(pre: seq<Entry>, g: seq<Entry>, post: seq<Entry>, j: nat, key: Key, n: i16)
    requires j < |g| && Ascending(g) && Below(pre, g[0].key) && g[j] == Int(key, n)
    ensures AsI16(pre + g + post, key) == Some(n)
  {
    hide AsInt, Absent, Below, Ascending;
    Within(pre, g, post, j);
    IntAt(pre + g + post, |pre| + j, key, n, -MAX_I16, MAX_I16);
  }

  lemma ViewportBack(v: Viewport)
    ensures ViewportTree(v).node.Mapping? && DecodeViewport(ViewportTree(v).node.entries) == Some(v)
  {
    hide Int, AsI16;
    var g := [Int(KEY_LEFT, v.l), Int(KEY_TOP, v.t), Int(KEY_RIGHT, v.r), Int(KEY_BOTTOM, v.b)];
    var pre := [Int(KEY_STRUCT_SIZE, SIZEOF_VIEWPORT)];
    assert pre + g + [] == ViewportTree(v).node.entries;
    ShortIn(pre, g, [], 0, KEY_LEFT, v.l);
    ShortIn(pre, g, [], 1, KEY_TOP, v.t);
    ShortIn(pre, g, [], 2, KEY_RIGHT, v.r);
    ShortIn(pre, g, [], 3, KEY_BOTTOM, v.b);
  }

  /** The bit fields hold what they are declared to. */
  predicate BitFields(c: Control) {
    c.alpha < 2 && c.topLayer < 2 && c.rotation < 4 && c.reserved < 0x1000_0000
  }

  lemma ControlKeys(c: Control)
    ensures Ascending(ControlFields(c)) && ControlFields(c)[0].key == KEY_ALPHA
              && ViewportTree(c.viewport).key == KEY_VIEWPORT
  {
    hide Int, Unsigned;
  }

  lemma ControlScalars(c: Control, e: seq<Entry>)
    requires BitFields(c) && e == Fields(SIZEOF_CONTROL, ControlFields(c))
    ensures AsU32(e, KEY_ALPHA) == Some(c.alpha) && AsU32(e, KEY_TOP_LAYER) == Some(c.topLayer)
    ensures AsU32(e, KEY_ROTATION) == Some(c.rotation) && AsU32(e, KEY_RESERVED) == Some(c.reserved)
    ensures AsMap(e, KEY_VIEWPORT) == Some(ViewportTree(c.viewport).node.entries)
  {
    hide Int, Unsigned, AsU32, AsMap, Below, Ascending, Fields;
    ControlKeys(c);
    var g := ControlFields(c);
    var pre := [Int(KEY_STRUCT_SIZE, SIZEOF_CONTROL)];
    SizeFirst(SIZEOF_CONTROL, g, KEY_ALPHA);
    UnsignedIn(pre, g, [], 0, KEY_ALPHA, c.alpha);
    UnsignedIn(pre, g, [], 1, KEY_TOP_LAYER, c.topLayer);
    UnsignedIn(pre, g, [], 2, KEY_ROTATION, c.rotation);
    UnsignedIn(pre, g, [], 3, KEY_RESERVED, c.reserved);
    Within(pre, g, [], 4);
    MapAt(pre + g + [], 5, KEY_VIEWPORT, ViewportTree(c.viewport).node.entries);
  }

  /** Display controls would come back if DecodeNode looked where they are logged. */
  lemma ControlBack(c: Control)
    requires BitFields(c)
    ensures DecodeControl(Some(ControlTree(c).node)) == Decoded(c)
  {
    hide AsU32, AsMap, ViewportTree, DecodeViewport, ControlFields, Fields;
    ViewportBack(c.viewport);
    ControlScalars(c, Fields(SIZEOF_CONTROL, ControlFields(c)));
  }
}
