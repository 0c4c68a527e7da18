/**
 The subset of YAML the profile log is written in: block mappings by indentation, one key per line.  A line
 is its indentation level, key and value; Build is the tree a YAML reader makes of them.
 */
module YmlTree {
  import opened Wrappers
  import opened Sequences

  /** One number per key literal; every struct lists its keys in this order. */
  type Key = nat

  const KEY_EVENT: Key := 0
  const KEY_METADATA: Key := 1
  const KEY_EVENT_ID: Key := 2
  const KEY_EVENT_NAME: Key := 3
  const KEY_DIRECTION: Key := 4
  const KEY_TIME_STAMP_US: Key := 5
  const KEY_COUNTS: Key := 6
  const KEY_CREATE_BUFFER_EVENTS: Key := 7
  const KEY_REMOVE_BUFFER_EVENTS: Key := 8
  const KEY_DISPLAY_REQ_EVENTS: Key := 9
  const KEY_CHANGE_RESOLUTION_EVENTS: Key := 10
  const KEY_DISP_INFO_REQ_EVENTS: Key := 11
  const KEY_DISP_PORT_REQ_EVENTS: Key := 12
  const KEY_SET_ALPHA_EVENTS: Key := 13
  const KEY_STRUCT_SIZE: Key := 14
  const KEY_DISPLAY_EVENT_T: Key := 15
  const KEY_TYPE: Key := 16
  const KEY_SIZE: Key := 17
  const KEY_ID: Key := 18
  const KEY_RENDER_NODE: Key := 19
  const KEY_BUFFER_INFO_T: Key := 20
  const KEY_REMOTE_HANDLE: Key := 21
  const KEY_DISPLAY_INFO_T: Key := 22
  const KEY_DISPLAY_PORT_T: Key := 23
  const KEY_SET_VIDEO_ALPHA_T: Key := 24
  const KEY_CROS_GRALLOC_HANDLE_T: Key := 25
  const KEY_NATIVE_HANDLE_T: Key := 26
  const KEY_VERSION: Key := 27
  const KEY_NUM_FDS: Key := 28
  const KEY_NUM_INTS: Key := 29
  const KEY_DATA: Key := 30
  const KEY_FDS: Key := 31
  const KEY_STRIDES: Key := 32
  const KEY_OFFSETS: Key := 33
  const KEY_SIZES: Key := 34
  const KEY_FORMAT_MODIFIERS: Key := 35
  const KEY_FLAGS: Key := 36
  const KEY_WIDTH: Key := 37
  const KEY_HEIGHT: Key := 38
  const KEY_STRIDE: Key := 39
  const KEY_FORMAT: Key := 40
  const KEY_TILING_MODE: Key := 41
  const KEY_USE_FLAGS: Key := 42
  const KEY_XDPI: Key := 43
  const KEY_YDPI: Key := 44
  const KEY_FPS: Key := 45
  const KEY_MIN_SWAP_INTERVAL: Key := 46
  const KEY_MAX_SWAP_INTERVAL: Key := 47
  const KEY_NUM_FRAMEBUFFERS: Key := 48
  const KEY_MAGIC: Key := 49
  const KEY_PIXEL_STRIDE: Key := 50
  const KEY_DROID_FORMAT: Key := 51
  const KEY_USAGE: Key := 52
  const KEY_CONSUMER_USAGE: Key := 53
  const KEY_PRODUCER_USAGE: Key := 54
  const KEY_YUV_COLOR_RANGE: Key := 55
  const KEY_IS_UPDATED: Key := 56
  const KEY_IS_ENCODED: Key := 57
  const KEY_IS_ENCRYPTED: Key := 58
  const KEY_IS_KEY_FRAME: Key := 59
  const KEY_IS_INTERLACED: Key := 60
  const KEY_IS_MMC_CAPABLE: Key := 61
  const KEY_COMPRESSION_MODE: Key := 62
  const KEY_COMPRESSION_HINT: Key := 63
  const KEY_CODEC: Key := 64
  const KEY_ALIGNED_WIDTH: Key := 65
  const KEY_ALIGNED_HEIGHT: Key := 66
  const KEY_DISPLAY_CONTROL_T: Key := 67
  const KEY_ALPHA: Key := 68
  const KEY_TOP_LAYER: Key := 69
  const KEY_ROTATION: Key := 70
  const KEY_PORT: Key := 71
  const KEY_RESERVE: Key := 72
  const KEY_ENABLE: Key := 73
  const KEY_RESERVED: Key := 74
  const KEY_VIEWPORT: Key := 75
  const KEY_LEFT: Key := 76
  const KEY_TOP: Key := 77
  const KEY_RIGHT: Key := 78
  const KEY_BOTTOM: Key := 79
  const KEY_BUFFER_INFO_EVENT_T: Key := 80
  const KEY_DISPLAY_INFO_EVENT_T: Key := 81
  const KEY_DISPLAY_PORT_EVENT_T: Key := 82
  const KEY_DISPLAY_SET_VIDEO_ALPHA_EVENT_T: Key := 83

  /** The words the log uses as values. */
  datatype Word =
    | EventInitialize | CreateBuffer | RemoveBuffer | DisplayReq | DispInfoReq | DispPortReq
    | DisplayAck | DispInfoAck | DispPortAck | SetupResolution | SetVideoAlphaReq | EventUnknown
    | ServerIpReq | ServerIpAck | ServerIpSet
    | Send | Receive

  datatype Value = Named(word: Word) | Plain(text: string)

  /** "key:" or "key: value" */
  datatype Line = Line(level: nat, key: Key, value: Option<Value>)

  datatype Node = Leaf(value: Value) | Mapping(entries: seq<Entry>) | Null

  datatype Entry = Entry(key: Key, node: Node)

  // ----- writing a tree -----

  function Print(level: nat, entries: seq<Entry>): seq<Line>
    decreases entries
  {
    if entries == [] then [] else PrintEntry(level, entries[0]) + Print(level, entries[1..])
  }

  function PrintEntry(level: nat, e: Entry): seq<Line>
    decreases e
  {
    match e.node
    case Leaf(v) => [Line(level, e.key, Some(v))]
    case Mapping(inner) => [Line(level, e.key, None)] + Print(level + 1, inner)
    case Null => [Line(level, e.key, None)]
  }

  lemma {:induction false} PrintConcat(level: nat, a: seq<Entry>, b: seq<Entry>)
    ensures Print(level, a + b) == Print(level, a) + Print(level, b)
    decreases a
  {
    hide PrintEntry;
    if a == [] {
      assert a + b == b;
    } else {
      PrintConcat(level, a[1..], b);
      PrintHead(level, a[0], a[1..] + b);
      PrintHead(level, a[0], a[1..]);
      hide Print;
      Uncons(a);
      Assoc([a[0]], a[1..], b);
      Assoc(PrintEntry(level, a[0]), Print(level, a[1..]), Print(level, b));
    }
  }

  lemma PrintHead(level: nat, e: Entry, rest: seq<Entry>)
    ensures Print(level, [e] + rest) == PrintEntry(level, e) + Print(level, rest)
  {
    hide PrintEntry;
    Cons(e, rest);
  }

  lemma PrintOne(level: nat, e: Entry)
    ensures Print(level, [e]) == PrintEntry(level, e)
  {
    assert [e][1..] == [];
  }

  /** Lines one level deeper, written after a mapping, extend it. */
  lemma PrintExtends(level: nat, key: Key, inner: seq<Entry>, more: seq<Entry>)
    ensures Print(level, [Entry(key, Mapping(inner))]) + Print(level + 1, more)
         == Print(level, [Entry(key, Mapping(inner + more))])
  {
    PrintOne(level, Entry(key, Mapping(inner)));
    PrintOne(level, Entry(key, Mapping(inner + more)));
    PrintConcat(level + 1, inner, more);
    hide Print;
    Assoc([Line(level, key, None)], Print(level + 1, inner), Print(level + 1, more));
  }

  // ----- reading it back -----

  /** The number of lines at the front that are indented more than `level`. */
  function Deeper(level: nat, lines: seq<Line>): (n: nat)
    ensures n <= |lines|
  {
    if lines == [] || lines[0].level <= level then 0 else 1 + Deeper(level, lines[1..])
  }

  /** The entries of a mapping whose keys stand at `level`; None if the indentation is inconsistent. */
  function Build(level: nat, lines: seq<Line>): Option<seq<Entry>>
    decreases |lines|, 0
  {
    if lines == [] then Some([])
    else if lines[0].level != level then None
    else
      var n := Deeper(level, lines[1..]);
      var rest :- Build(level, lines[1 + n..]);
      var node :- BuildNode(lines[0].value, lines[1..1 + n]);
      Some([Entry(lines[0].key, node)] + rest)
  }

  function BuildNode(value: Option<Value>, inside: seq<Line>): Option<Node>
    decreases |inside|, 1
  {
    if inside == [] then Some(if value.Some? then Leaf(value.value) else Null)
    else if value.Some? then None
    else
      var entries :- Build(inside[0].level, inside);
      Some(Mapping(entries))
  }

  /** No mapping inside is empty. */
  ghost predicate Solid(entries: seq<Entry>)
    decreases entries
  {
    forall i :: 0 <= i < |entries| ==> SolidEntry(entries[i])
  }

  ghost predicate SolidEntry(e: Entry)
    decreases e
  {
    e.node.Mapping? ==> e.node.entries != [] && Solid(e.node.entries)
  }

  lemma {:induction false} DeeperThan(level: nat, a: seq<Line>, b: seq<Line>)
    requires forall i :: 0 <= i < |a| ==> a[i].level > level
    requires b != [] ==> b[0].level <= level
    ensures Deeper(level, a + b) == |a|
  {
    if a == [] {
      assert a + b == b;
    } else {
      DeeperThan(level, a[1..], b);
      assert (a + b)[1..] == a[1..] + b;
    }
  }

  ghost predicate AtLeast(level: nat, lines: seq<Line>) {
    forall i :: 0 <= i < |lines| ==> lines[i].level >= level
  }

  lemma {:induction false} PrintLevels(level: nat, entries: seq<Entry>)
    ensures AtLeast(level, Print(level, entries))
    ensures entries != [] ==> Print(level, entries) != [] && Print(level, entries)[0].level == level
    decreases entries
  {
    if entries != [] {
      PrintLevels(level, entries[1..]);
      EntryLevels(level, entries[0]);
    }
  }

  lemma {:induction false} EntryLevels(level: nat, e: Entry)
    ensures PrintEntry(level, e) != [] && PrintEntry(level, e)[0].level == level
    ensures AtLeast(level + 1, PrintEntry(level, e)[1..])
    decreases e
  {
    if e.node.Mapping? {
      PrintLevels(level + 1, e.node.entries);
    }
  }

  /** Reading what was written gives the tree back, at any level. */
  lemma {:induction false} BuildPrint(level: nat, entries: seq<Entry>)
    requires Solid(entries)
    ensures Build(level, Print(level, entries)) == Some(entries)
    decreases entries
  {
    if entries == [] {
    } else {
      var e, rest := entries[0], entries[1..];
      BuildPrint(level, rest);
      BuildEntry(level, e);
      EntryLevels(level, e);
      PrintLevels(level, rest);
      hide PrintEntry, SolidEntry, BuildNode, Build;
      var head, tail := PrintEntry(level, e), Print(level, rest);
      assert Print(level, entries) == head + tail;
      PrintEmpty(level, rest);
      BuildHead(level, head, tail);
      Uncons(entries);
    }
  }

  lemma PrintEmpty(level: nat, entries: seq<Entry>)
    ensures entries == [] ==> Print(level, entries) == []
  {
  }

  /** The lines of one entry give the entry back. */
  lemma {:induction false} BuildEntry(level: nat, e: Entry)
    requires SolidEntry(e)
    ensures var p := PrintEntry(level, e);
            p[0].key == e.key && p[0].level == level && BuildNode(p[0].value, p[1..]) == Some(e.node)
    decreases e
  {
    if e.node.Mapping? {
      BuildPrint(level + 1, e.node.entries);
      PrintLevels(level + 1, e.node.entries);
      assert PrintEntry(level, e)[1..] == Print(level + 1, e.node.entries);
    }
  }

  lemma BuildHead(level: nat, head: seq<Line>, tail: seq<Line>)
    requires head != [] && head[0].level == level && AtLeast(level + 1, head[1..])
    requires tail != [] ==> tail[0].level <= level
    requires Build(level, tail).Some? && BuildNode(head[0].value, head[1..]).Some?
    ensures Build(level, head + tail)
         == Some([Entry(head[0].key, BuildNode(head[0].value, head[1..]).value)] + Build(level, tail).value)
  {
    hide BuildNode, Deeper;
    var lines := head + tail;
    DeeperThan(level, head[1..], tail);
    HeadTail(head, tail);
  }

  // ----- looking keys up -----

  function Lookup(entries: seq<Entry>, key: Key): Option<Node> {
    if entries == [] then None
    else if entries[0].key == key then Some(entries[0].node)
    else Lookup(entries[1..], key)
  }

  predicate Absent(entries: seq<Entry>, key: Key) {
    forall i :: 0 <= i < |entries| ==> entries[i].key != key
  }

  lemma {:induction false} LookupAbsent(entries: seq<Entry>, key: Key)
    requires Absent(entries, key)
    ensures Lookup(entries, key) == None
  {
    if entries != [] {
      LookupAbsent(entries[1..], key);
    }
  }

  lemma {:induction false} LookupAfter(a: seq<Entry>, b: seq<Entry>, key: Key)
    requires Absent(a, key)
    ensures Lookup(a + b, key) == Lookup(b, key)
  {
    if a == [] {
      assert a + b == b;
    } else {
      LookupAfter(a[1..], b, key);
      assert (a + b)[1..] == a[1..] + b;
    }
  }

  /** An entry is found if no earlier one has its key. */
  lemma {:induction false} LookupAt(entries: seq<Entry>, k: nat)
    requires k < |entries| && Absent(entries[..k], entries[k].key)
    ensures Lookup(entries, entries[k].key) == Some(entries[k].node)
  {
    LookupAfter(entries[..k], entries[k..], entries[k].key);
    assert entries == entries[..k] + entries[k..];
  }

  /** Keys in the order of Key, so none twice. */
  ghost predicate Ascending(entries: seq<Entry>) {
    forall i, j :: 0 <= i < j < |entries| ==> entries[i].key < entries[j].key
  }

  ghost predicate Below(entries: seq<Entry>, code: nat) {
    forall i :: 0 <= i < |entries| ==> entries[i].key < code
  }

  /** A field keeps its place, and its key stays new, behind entries with earlier keys. */
  lemma Within(pre: seq<Entry>, g: seq<Entry>, post: seq<Entry>, j: nat)
    requires j < |g| && Ascending(g) && Below(pre, g[0].key)
    ensures var e := pre + g + post;
            |pre| + j < |e| && e[|pre| + j] == g[j] && Absent(e[..|pre| + j], g[j].key)
  {
    var e := pre + g + post;
    assert e[..|pre| + j] == pre + g[..j];
    assert g[0].key <= g[j].key;
  }

  lemma BelowConcat(pre: seq<Entry>, g: seq<Entry>, code: nat)
    requires g != [] && Ascending(g) && Below(pre, g[0].key) && g[|g| - 1].key < code
    ensures Below(pre + g, code)
  {
    assert g[0].key <= g[|g| - 1].key;
  }
}
