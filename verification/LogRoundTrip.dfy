/**
 YmlParser's decode functions and what they make of the trees ProfileLogger writes: each struct comes back
 exactly when its unsigned fields print as non-negative numbers.
 */
module LogRoundTrip {
  import opened Wrappers
  import opened DisplayProtocol
  import opened YmlTree
  import opened LogStructs
  import opened LogDecode

  // ----- fields of a struct, in groups -----

  lemma UnsignedIn(pre: seq<Entry>, g: seq<Entry>, post: seq<Entry>, j: nat, key: Key, n: u32)
    requires j < |g| && Ascending(g) && Below(pre, g[0].key) && g[j] == Unsigned(key, n)
    ensures AsU32(pre + g + post, key) == if n < MAX_I32 then Some(n) else None
  {
    hide Ascending, Below, Absent;
    hide AsU32, AsI32, AsU32s, AsI32s;
    Within(pre, g, post, j);
    UnsignedAt(pre + g + post, |pre| + j, key, n);
  }

  lemma SignedIn(pre: seq<Entry>, g: seq<Entry>, post: seq<Entry>, j: nat, key: Key, n: i32)
    requires j < |g| && Ascending(g) && Below(pre, g[0].key) && g[j] == Int(key, n)
    ensures AsI32(pre + g + post, key) == Some(n)
  {
    hide Ascending, Below, Absent;
    hide AsU32, AsI32, AsU32s, AsI32s;
    Within(pre, g, post, j);
    SignedAt(pre + g + post, |pre| + j, key, n);
  }

  lemma MagicIn(pre: seq<Entry>, g: seq<Entry>, post: seq<Entry>, j: nat, key: Key, n: u32)
    requires j < |g| && Ascending(g) && Below(pre, g[0].key) && g[j] == Int(key, n)
    ensures AsU32(pre + g + post, key) == Some(n)
  {
    hide AsInt, Absent, Below, Ascending;
    Within(pre, g, post, j);
    IntAt(pre + g + post, |pre| + j, key, n, 0, MAX_U32);
  }

  lemma HexIn(pre: seq<Entry>, g: seq<Entry>, post: seq<Entry>, j: nat, key: Key, n: u32)
    requires j < |g| && Ascending(g) && Below(pre, g[0].key) && g[j] == Hex(key, n)
    ensures AsU32(pre + g + post, key) == Some(n)
  {
    hide Ascending, Below, Absent;
    hide AsU32, AsI32, AsU32s, AsI32s;
    Within(pre, g, post, j);
    HexAt(pre + g + post, |pre| + j, key, n);
  }

  lemma UnsignedsIn(pre: seq<Entry>, g: seq<Entry>, post: seq<Entry>, j: nat, key: Key, a: seq<u32>)
    requires |a| > 0
    requires j < |g| && Ascending(g) && Below(pre, g[0].key) && g[j] == Array(key, a)
    ensures AsU32s(pre + g + post, key, |a|) == if Small(a) then Some(a) else None
  {
    hide Ascending, Below, Absent;
    hide AsU32, AsI32, AsU32s, AsI32s;
    Within(pre, g, post, j);
    UnsignedsAt(pre + g + post, |pre| + j, key, a);
  }

  lemma SignedsIn(pre: seq<Entry>, g: seq<Entry>, post: seq<Entry>, j: nat, key: Key, a: seq<i32>)
    requires |a| > 0
    requires j < |g| && Ascending(g) && Below(pre, g[0].key) && g[j] == Array(key, a)
    ensures AsI32s(pre + g + post, key, |a|) == Some(a)
  {
    hide Ascending, Below, Absent;
    hide AsU32, AsI32, AsU32s, AsI32s;
    Within(pre, g, post, j);
    SignedsAt(pre + g + post, |pre| + j, key, a);
  }

  // ----- cros_gralloc_handle -----

  function DecodePlanes(e: seq<Entry>): Option<Planes> {
    var fds :- AsI32s(e, KEY_FDS, DRV_MAX_PLANES);
    var strides :- AsU32s(e, KEY_STRIDES, DRV_MAX_PLANES);
    var offsets :- AsU32s(e, KEY_OFFSETS, DRV_MAX_PLANES);
    var sizes :- AsU32s(e, KEY_SIZES, DRV_MAX_PLANES);
    var formatModifiers :- AsU32s(e, KEY_FORMAT_MODIFIERS, 2 * DRV_MAX_PLANES);
    Some(Planes(fds, strides, offsets, sizes, formatModifiers))
  }

  predicate SmallPlanes(p: Planes) {
    Small(p.strides) && Small(p.offsets) && Small(p.sizes) && Small(p.formatModifiers)
  }

  lemma PlanesKeys(p: Planes)
    ensures var g := PlanesFields(p);
            g != [] && Ascending(g) && g[0].key == KEY_FDS && g[|g| - 1].key == KEY_FORMAT_MODIFIERS
  {
    hide Int, Unsigned, Array;
  }

  lemma PlanesBack(pre: seq<Entry>, p: Planes, post: seq<Entry>)
    requires Below(pre, KEY_FDS)
    ensures DecodePlanes(pre + PlanesFields(p) + post) == if SmallPlanes(p) then Some(p) else None
  {
    hide Array, AsI32s, AsU32s, Small, Below, Ascending;
    PlanesKeys(p);
    var g := PlanesFields(p);
    SignedsIn(pre, g, post, 0, KEY_FDS, p.fds);
    UnsignedsIn(pre, g, post, 1, KEY_STRIDES, p.strides);
    UnsignedsIn(pre, g, post, 2, KEY_OFFSETS, p.offsets);
    UnsignedsIn(pre, g, post, 3, KEY_SIZES, p.sizes);
    UnsignedsIn(pre, g, post, 4, KEY_FORMAT_MODIFIERS, p.formatModifiers);
  }

  function DecodeExtent(e: seq<Entry>): Option<Extent> {
    var width :- AsU32(e, KEY_WIDTH);
    var height :- AsU32(e, KEY_HEIGHT);
    var format :- AsU32(e, KEY_FORMAT);
    var tilingMode :- AsU32(e, KEY_TILING_MODE);
    var useFlags :- AsU32s(e, KEY_USE_FLAGS, 2);
    Some(Extent(width, height, format, tilingMode, useFlags))
  }

  predicate SmallExtent(x: Extent) {
    x.width < MAX_I32 && x.height < MAX_I32 && x.format < MAX_I32 && x.tilingMode < MAX_I32 && Small(x.useFlags)
  }

  lemma ExtentKeys(x: Extent)
    ensures var g := ExtentFields(x);
            g != [] && Ascending(g) && g[0].key == KEY_WIDTH && g[|g| - 1].key == KEY_USE_FLAGS
  {
    hide Int, Unsigned, Array;
  }

  lemma ExtentBack(pre: seq<Entry>, x: Extent, post: seq<Entry>)
    requires Below(pre, KEY_WIDTH)
    ensures DecodeExtent(pre + ExtentFields(x) + post) == if SmallExtent(x) then Some(x) else None
  {
    hide Array, Unsigned, AsU32, AsU32s, Small, Below, Ascending;
    ExtentKeys(x);
    var g := ExtentFields(x);
    UnsignedIn(pre, g, post, 0, KEY_WIDTH, x.width);
    UnsignedIn(pre, g, post, 1, KEY_HEIGHT, x.height);
    UnsignedIn(pre, g, post, 2, KEY_FORMAT, x.format);
    UnsignedIn(pre, g, post, 3, KEY_TILING_MODE, x.tilingMode);
    UnsignedsIn(pre, g, post, 4, KEY_USE_FLAGS, x.useFlags);
  }

  function DecodeUsage(e: seq<Entry>): Option<Usage> {
    var magic :- AsU32(e, KEY_MAGIC);
    var pixelStride :- AsU32(e, KEY_PIXEL_STRIDE);
    var droidFormat :- AsI32(e, KEY_DROID_FORMAT);
    var usage :- AsI32(e, KEY_USAGE);
    var consumerUsage :- AsU32(e, KEY_CONSUMER_USAGE);
    var producerUsage :- AsU32(e, KEY_PRODUCER_USAGE);
    var yuvColorRange :- AsU32(e, KEY_YUV_COLOR_RANGE);
    Some(Usage(magic, pixelStride, droidFormat, usage, consumerUsage, producerUsage, yuvColorRange))
  }

  /** Any magic number comes back: it alone is printed with %u. */
  predicate SmallUsage(u: Usage) {
    && u.pixelStride < MAX_I32 && u.consumerUsage < MAX_I32 && u.producerUsage < MAX_I32
    && u.yuvColorRange < MAX_I32
  }

  lemma UsageKeys(u: Usage)
    ensures var g := UsageFields(u);
            g != [] && Ascending(g) && g[0].key == KEY_MAGIC && g[|g| - 1].key == KEY_YUV_COLOR_RANGE
  {
    hide Int, Unsigned, Array;
  }

  lemma UsageBack(pre: seq<Entry>, u: Usage, post: seq<Entry>)
    requires Below(pre, KEY_MAGIC)
    ensures DecodeUsage(pre + UsageFields(u) + post) == if SmallUsage(u) then Some(u) else None
  {
    hide Int, Unsigned, AsU32, AsI32, Below, Ascending;
    UsageKeys(u);
    var g := UsageFields(u);
    MagicIn(pre, g, post, 0, KEY_MAGIC, u.magic);
    UnsignedIn(pre, g, post, 1, KEY_PIXEL_STRIDE, u.pixelStride);
    SignedIn(pre, g, post, 2, KEY_DROID_FORMAT, u.droidFormat);
    SignedIn(pre, g, post, 3, KEY_USAGE, u.usage);
    UnsignedIn(pre, g, post, 4, KEY_CONSUMER_USAGE, u.consumerUsage);
    UnsignedIn(pre, g, post, 5, KEY_PRODUCER_USAGE, u.producerUsage);
    UnsignedIn(pre, g, post, 6, KEY_YUV_COLOR_RANGE, u.yuvColorRange);
  }

  function DecodeFlags(e: seq<Entry>): Option<Flags> {
    var isUpdated :- AsU32(e, KEY_IS_UPDATED);
    var isEncoded :- AsU32(e, KEY_IS_ENCODED);
    var isEncrypted :- AsU32(e, KEY_IS_ENCRYPTED);
    var isKeyFrame :- AsU32(e, KEY_IS_KEY_FRAME);
    var isInterlaced :- AsU32(e, KEY_IS_INTERLACED);
    var isMmcCapable :- AsU32(e, KEY_IS_MMC_CAPABLE);
    Some(Flags(isUpdated, isEncoded, isEncrypted, isKeyFrame, isInterlaced, isMmcCapable))
  }

  predicate SmallFlags(f: Flags) {
    && f.isUpdated < MAX_I32 && f.isEncoded < MAX_I32 && f.isEncrypted < MAX_I32
    && f.isKeyFrame < MAX_I32 && f.isInterlaced < MAX_I32 && f.isMmcCapable < MAX_I32
  }

  lemma FlagsKeys(f: Flags)
    ensures var g := FlagsFields(f);
            g != [] && Ascending(g) && g[0].key == KEY_IS_UPDATED && g[|g| - 1].key == KEY_IS_MMC_CAPABLE
  {
    hide Int, Unsigned, Array;
  }

  lemma FlagsBack(pre: seq<Entry>, f: Flags, post: seq<Entry>)
    requires Below(pre, KEY_IS_UPDATED)
    ensures DecodeFlags(pre + FlagsFields(f) + post) == if SmallFlags(f) then Some(f) else None
  {
    hide Unsigned, AsU32, Below, Ascending;
    FlagsKeys(f);
    var g := FlagsFields(f);
    UnsignedIn(pre, g, post, 0, KEY_IS_UPDATED, f.isUpdated);
    UnsignedIn(pre, g, post, 1, KEY_IS_ENCODED, f.isEncoded);
    UnsignedIn(pre, g, post, 2, KEY_IS_ENCRYPTED, f.isEncrypted);
    UnsignedIn(pre, g, post, 3, KEY_IS_KEY_FRAME, f.isKeyFrame);
    UnsignedIn(pre, g, post, 4, KEY_IS_INTERLACED, f.isInterlaced);
    UnsignedIn(pre, g, post, 5, KEY_IS_MMC_CAPABLE, f.isMmcCapable);
  }

  function DecodeCoding(e: seq<Entry>): Option<Coding> {
    var compressionMode :- AsU32(e, KEY_COMPRESSION_MODE);
    var compressionHint :- AsU32(e, KEY_COMPRESSION_HINT);
    var codec :- AsU32(e, KEY_CODEC);
    var alignedWidth :- AsU32(e, KEY_ALIGNED_WIDTH);
    var alignedHeight :- AsU32(e, KEY_ALIGNED_HEIGHT);
    Some(Coding(compressionMode, compressionHint, codec, alignedWidth, alignedHeight))
  }

  predicate SmallCoding(c: Coding) {
    && c.compressionMode < MAX_I32 && c.compressionHint < MAX_I32 && c.codec < MAX_I32
    && c.alignedWidth < MAX_I32 && c.alignedHeight < MAX_I32
  }

  lemma CodingKeys(c: Coding)
    ensures var g := CodingFields(c);
            g != [] && Ascending(g) && g[0].key == KEY_COMPRESSION_MODE && g[|g| - 1].key == KEY_ALIGNED_HEIGHT
  {
    hide Int, Unsigned, Array;
  }

  lemma CodingBack(pre: seq<Entry>, c: Coding, post: seq<Entry>)
    requires Below(pre, KEY_COMPRESSION_MODE)
    ensures DecodeCoding(pre + CodingFields(c) + post) == if SmallCoding(c) then Some(c) else None
  {
    hide Unsigned, AsU32, Below, Ascending;
    CodingKeys(c);
    var g := CodingFields(c);
    UnsignedIn(pre, g, post, 0, KEY_COMPRESSION_MODE, c.compressionMode);
    UnsignedIn(pre, g, post, 1, KEY_COMPRESSION_HINT, c.compressionHint);
    UnsignedIn(pre, g, post, 2, KEY_CODEC, c.codec);
    UnsignedIn(pre, g, post, 3, KEY_ALIGNED_WIDTH, c.alignedWidth);
    UnsignedIn(pre, g, post, 4, KEY_ALIGNED_HEIGHT, c.alignedHeight);
  }

  function DecodeNative(e: seq<Entry>): Option<NativeHandle> {
    var version :- AsI32(e, KEY_VERSION);
    var numFds :- AsI32(e, KEY_NUM_FDS);
    var numInts :- AsI32(e, KEY_NUM_INTS);
    Some(NativeHandle(version, numFds, numInts))
  }

  lemma SizeFirst(size: nat, fields: seq<Entry>, code: nat)
    requires KEY_STRUCT_SIZE < code
    ensures var pre := [Int(KEY_STRUCT_SIZE, size)];
            Below(pre, code) && pre + fields + [] == Fields(size, fields)
  {
  }

  lemma NativeKeys(n: NativeHandle)
    ensures Ascending(NativeFields(n))
  {
    hide Int;
  }

  lemma NativeBack(n: NativeHandle)
    ensures DecodeNative(Fields(SIZEOF_NATIVE, NativeFields(n))) == Some(n)
  {
    NativeKeys(n);
    var g := NativeFields(n);
    var pre := [Int(KEY_STRUCT_SIZE, SIZEOF_NATIVE)];
    SizeFirst(SIZEOF_NATIVE, g, KEY_VERSION);
    hide Int, AsI32, Below, Ascending, Fields;
    SignedIn(pre, g, [], 0, KEY_VERSION, n.version);
    SignedIn(pre, g, [], 1, KEY_NUM_FDS, n.numFds);
    SignedIn(pre, g, [], 2, KEY_NUM_INTS, n.numInts);
  }

  function DecodeGralloc(node: Option<Node>): Decoded<Gralloc> {
    match node
    case Some(Mapping(e)) =>
      var native := AsMap(e, KEY_NATIVE_HANDLE_T);
      if native.None? then Refused
      else
        var base, planes, extent := DecodeNative(native.value), DecodePlanes(e), DecodeExtent(e);
        var usage, flags, coding := DecodeUsage(e), DecodeFlags(e), DecodeCoding(e);
        if base.Some? && planes.Some? && extent.Some? && usage.Some? && flags.Some? && coding.Some? then
          Decoded(Gralloc(base.value, planes.value, extent.value, usage.value, flags.value, coding.value))
        else Threw
    case _ => Refused
  }

  predicate SmallGralloc(h: Gralloc) {
    SmallPlanes(h.planes) && SmallExtent(h.extent) && SmallUsage(h.usage) && SmallFlags(h.flags)
        && SmallCoding(h.coding)
  }

  /** The entries up to each group, and the rest after it. */
  lemma GrallocRegroup(size: Entry, native: Entry, planes: seq<Entry>, extent: seq<Entry>, usage: seq<Entry>,
                       flags: seq<Entry>, coding: seq<Entry>)
    ensures var e, pre1 := [size] + ([native] + planes + extent + usage + flags + coding), [size, native];
            && e == pre1 + planes + (extent + usage + flags + coding)
            && e == pre1 + planes + extent + (usage + flags + coding)
            && e == pre1 + planes + extent + usage + (flags + coding)
            && e == pre1 + planes + extent + usage + flags + coding
            && e == pre1 + planes + extent + usage + flags + coding + []
  {
  }

  function Front(h: Gralloc): seq<Entry> {
    [Int(KEY_STRUCT_SIZE, SIZEOF_GRALLOC), NativeTree(h.base)]
  }

  lemma FrontsInOrder(h: Gralloc)
    ensures Below(Front(h), KEY_FDS)
    ensures Below(Front(h) + PlanesFields(h.planes), KEY_WIDTH)
    ensures Below(Front(h) + PlanesFields(h.planes) + ExtentFields(h.extent), KEY_MAGIC)
    ensures Below(Front(h) + PlanesFields(h.planes) + ExtentFields(h.extent) + UsageFields(h.usage), KEY_IS_UPDATED)
    ensures Below(Front(h) + PlanesFields(h.planes) + ExtentFields(h.extent) + UsageFields(h.usage)
              + FlagsFields(h.flags),
                  KEY_COMPRESSION_MODE)
  {
    hide Front, PlanesFields, ExtentFields, UsageFields, FlagsFields, Below, Ascending;
    FrontKeys(h);
    PlanesKeys(h.planes);
    ExtentKeys(h.extent);
    UsageKeys(h.usage);
    FlagsKeys(h.flags);
    Climb(Front(h), PlanesFields(h.planes), ExtentFields(h.extent), UsageFields(h.usage), FlagsFields(h.flags),
          KEY_WIDTH, KEY_MAGIC, KEY_IS_UPDATED, KEY_COMPRESSION_MODE);
  }

  predicate Reaches(g: seq<Entry>, code: nat) {
    g != [] && g[|g| - 1].key < code
  }

  lemma Climb(front: seq<Entry>, p: seq<Entry>, x: seq<Entry>, u: seq<Entry>, f: seq<Entry>, c2: nat, c3: nat,
      c4: nat, c5: nat)
    requires Reaches(p, c2) && Reaches(x, c3) && Reaches(u, c4) && Reaches(f, c5)
    requires Ascending(p) && Ascending(x) && Ascending(u) && Ascending(f)
    requires Below(front, p[0].key) && c2 == x[0].key && c3 == u[0].key && c4 == f[0].key
    ensures Below(front + p, c2) && Below(front + p + x, c3) && Below(front + p + x + u, c4)
    ensures Below(front + p + x + u + f, c5)
  {
    hide Ascending, Below;
    BelowConcat(front, p, c2);
    BelowConcat(front + p, x, c3);
    BelowConcat(front + p + x, u, c4);
    BelowConcat(front + p + x + u, f, c5);
  }

  lemma FrontKeys(h: Gralloc)
    ensures Below(Front(h), KEY_FDS)
  {
    hide Int;
  }

  lemma GroupsBack(h: Gralloc, e: seq<Entry>)
    requires e == Fields(SIZEOF_GRALLOC, GrallocFields(h))
    ensures DecodePlanes(e) == if SmallPlanes(h.planes) then Some(h.planes) else None
    ensures DecodeExtent(e) == if SmallExtent(h.extent) then Some(h.extent) else None
    ensures DecodeUsage(e) == if SmallUsage(h.usage) then Some(h.usage) else None
    ensures DecodeFlags(e) == if SmallFlags(h.flags) then Some(h.flags) else None
    ensures DecodeCoding(e) == if SmallCoding(h.coding) then Some(h.coding) else None
  {
    hide Int, NativeTree, PlanesFields, ExtentFields, UsageFields, FlagsFields, CodingFields, Below, Ascending;
    hide DecodePlanes, DecodeExtent, DecodeUsage, DecodeFlags, DecodeCoding;
    hide SmallPlanes, SmallExtent, SmallUsage, SmallFlags, SmallCoding;
    var planes, extent := PlanesFields(h.planes), ExtentFields(h.extent);
    var usage, flags, coding := UsageFields(h.usage), FlagsFields(h.flags), CodingFields(h.coding);
    GrallocRegroup(Int(KEY_STRUCT_SIZE, SIZEOF_GRALLOC), NativeTree(h.base), planes, extent, usage, flags, coding);
    FrontsInOrder(h);
    PlanesBack(Front(h), h.planes, extent + usage + flags + coding);
    ExtentBack(Front(h) + planes, h.extent, usage + flags + coding);
    UsageBack(Front(h) + planes + extent, h.usage, flags + coding);
    FlagsBack(Front(h) + planes + extent + usage, h.flags, coding);
    CodingBack(Front(h) + planes + extent + usage + flags, h.coding, []);
  }

  lemma NativeFound(h: Gralloc, e: seq<Entry>)
    requires e == Fields(SIZEOF_GRALLOC, GrallocFields(h))
    ensures AsMap(e, KEY_NATIVE_HANDLE_T).Some? && DecodeNative(AsMap(e, KEY_NATIVE_HANDLE_T).value) == Some(h.base)
  {
    NativeBack(h.base);
    hide Int, PlanesFields, ExtentFields, UsageFields, FlagsFields, CodingFields, DecodeNative, NativeFields;
    assert e[1] == NativeTree(h.base);
    assert e[..1] == [Int(KEY_STRUCT_SIZE, SIZEOF_GRALLOC)];
    MapAt(e, 1, KEY_NATIVE_HANDLE_T, Fields(SIZEOF_NATIVE, NativeFields(h.base)));
  }

  /** A graphics buffer handle, native handle included, comes back exactly when its printed fields are small. */
  lemma GrallocBack(h: Gralloc)
    ensures DecodeGralloc(Some(GrallocTree(h).node)) == if SmallGralloc(h) then Decoded(h) else Threw
  {
    hide Int, GrallocFields, AsMap, DecodeNative;
    hide DecodePlanes, DecodeExtent, DecodeUsage, DecodeFlags, DecodeCoding;
    hide SmallPlanes, SmallExtent, SmallUsage, SmallFlags, SmallCoding;
    var e := Fields(SIZEOF_GRALLOC, GrallocFields(h));
    NativeFound(h, e);
    GroupsBack(h, e);
  }
}
