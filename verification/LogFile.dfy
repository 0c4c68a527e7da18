/**
 The log file: one YAML document per event.  ProfileLogger appends to it line by line; reading the file gives
 the documents back.
 */
module LogFile {
  import opened Wrappers
  import opened Sequences
  import opened DisplayProtocol
  import opened YmlTree
  import opened LogStructs

  /** "---", "..." or a line of a document. */
  datatype Row = Start | End | Text(line: Line)

  function Texts(lines: seq<Line>): (r: seq<Row>)
    ensures |r| == |lines| && forall i :: 0 <= i < |r| ==> r[i] == Text(lines[i])
  {
    seq(|lines|, i requires 0 <= i < |lines| => Text(lines[i]))
  }

  /** The rows of some entries at a level. */
  function Written(level: nat, entries: seq<Entry>): seq<Row> {
    Texts(Print(level, entries))
  }

  /** The end of the previous document is marked with the start of the next. */
  function Opening(eventId: nat): seq<Row> {
    if eventId != 0 then [End, Start] else [Start]
  }

  function DocRows(d: Doc): seq<Row> {
    Opening(d.meta.eventId) + Written(0, DocTree(d))
  }

  function FileRows(docs: seq<Doc>): seq<Row> {
    if docs == [] then [] else DocRows(docs[0]) + FileRows(docs[1..])
  }

  lemma {:induction false} FileRowsConcat(a: seq<Doc>, b: seq<Doc>)
    ensures FileRows(a + b) == FileRows(a) + FileRows(b)
  {
    hide DocRows;
    if a == [] {
      assert a + b == b;
    } else {
      FileRowsConcat(a[1..], b);
      HeadTail(a, b);
      Assoc(DocRows(a[0]), FileRows(a[1..]), FileRows(b));
    }
  }

  lemma FileRowsOne(d: Doc)
    ensures FileRows([d]) == DocRows(d)
  {
    assert [d][1..] == [];
  }

  lemma TextsConcat(a: seq<Line>, b: seq<Line>)
    ensures Texts(a + b) == Texts(a) + Texts(b)
  {
  }

  lemma WrittenConcat(level: nat, a: seq<Entry>, b: seq<Entry>)
    ensures Written(level, a + b) == Written(level, a) + Written(level, b)
  {
    PrintConcat(level, a, b);
    TextsConcat(Print(level, a), Print(level, b));
  }

  lemma WrittenExtends(level: nat, key: Key, inner: seq<Entry>, more: seq<Entry>)
    ensures Written(level, [Entry(key, Mapping(inner))]) + Written(level + 1, more)
         == Written(level, [Entry(key, Mapping(inner + more))])
  {
    PrintExtends(level, key, inner, more);
    TextsConcat(Print(level, [Entry(key, Mapping(inner))]), Print(level + 1, more));
  }

  /** A document grows by what is written one level below "event". */
  lemma DocGains(meta: Meta, body: seq<Entry>, more: seq<Entry>)
    ensures Written(0, [Entry(KEY_EVENT, Mapping([MetaTree(meta)] + body))]) + Written(1, more)
         == Written(0, [Entry(KEY_EVENT, Mapping([MetaTree(meta)] + (body + more)))])
  {
    hide MetaTree, Written;
    WrittenExtends(0, KEY_EVENT, [MetaTree(meta)] + body, more);
    Assoc([MetaTree(meta)], body, more);
  }

  /** A document whose body is one mapping grows by what is written two levels below "event". */
  lemma DocDeepens(meta: Meta, key: Key, inner: seq<Entry>, more: seq<Entry>)
    ensures Written(0, [Entry(KEY_EVENT, Mapping([MetaTree(meta), Entry(key, Mapping(inner))]))]) + Written(2, more)
         == Written(0, [Entry(KEY_EVENT, Mapping([MetaTree(meta), Entry(key, Mapping(inner + more))]))])
  {
    hide MetaTree, Written;
    var m, x, y := MetaTree(meta), Entry(key, Mapping(inner)), Entry(key, Mapping(inner + more));
    assert [m, x] == [m] + [x] && [m, y] == [m] + [y];
    WrittenExtends(1, key, inner, more);
    WrittenExtends(0, KEY_EVENT, [m], [x]);
    WrittenExtends(0, KEY_EVENT, [m], [y]);
    Assoc(Written(0, [Entry(KEY_EVENT, Mapping([m]))]), Written(1, [x]), Written(2, more));
  }

  // ----- reading -----

  function TextRun(rows: seq<Row>): (n: nat)
    ensures n <= |rows| && forall i :: 0 <= i < n ==> rows[i].Text?
  {
    if rows == [] || !rows[0].Text? then 0 else 1 + TextRun(rows[1..])
  }

  function LinesOf(rows: seq<Row>): seq<Line>
    requires forall i :: 0 <= i < |rows| ==> rows[i].Text?
  {
    seq(|rows|, i requires 0 <= i < |rows| => rows[i].line)
  }

  /** The lines of each document; anything before the first start is comments. */
  function Documents(rows: seq<Row>): seq<seq<Line>> {
    if rows == [] then []
    else if !rows[0].Start? then Documents(rows[1..])
    else
      var n := TextRun(rows[1..]);
      [LinesOf(rows[1..][..n])] + Documents(rows[1..][n..])
  }

  /** YAML::LoadAllFromFile: the tree of each document, or None for its exception. */
  function LoadAll(documents: seq<seq<Line>>): Option<seq<seq<Entry>>> {
    if documents == [] then Some([])
    else
      var first :- Build(0, documents[0]);
      var rest :- LoadAll(documents[1..]);
      Some([first] + rest)
  }

  lemma {:induction false} TextRunOfTexts(lines: seq<Line>, rest: seq<Row>)
    requires rest != [] ==> !rest[0].Text?
    ensures TextRun(Texts(lines) + rest) == |lines|
  {
    if lines == [] {
      assert Texts(lines) + rest == rest;
    } else {
      TextRunOfTexts(lines[1..], rest);
      assert (Texts(lines) + rest)[1..] == Texts(lines[1..]) + rest;
    }
  }

  lemma DocumentsStart(lines: seq<Line>, rest: seq<Row>)
    requires rest != [] ==> !rest[0].Text?
    ensures Documents([Start] + (Texts(lines) + rest)) == [lines] + Documents(rest)
  {
    TextRunOfTexts(lines, rest);
    var rows := Texts(lines) + rest;
    Cons(Start, rows);
    assert rows[..|lines|] == Texts(lines) && rows[|lines|..] == rest;
    assert LinesOf(Texts(lines)) == lines;
  }

  lemma DocumentsDoc(d: Doc, rest: seq<Row>)
    requires rest != [] ==> !rest[0].Text?
    ensures Documents(DocRows(d) + rest) == [Print(0, DocTree(d))] + Documents(rest)
  {
    var t := Written(0, DocTree(d));
    DocumentsStart(Print(0, DocTree(d)), rest);
    hide Documents, Written, DocTree;
    Assoc([Start], t, rest);
    if d.meta.eventId != 0 {
      SkipEnd([Start] + (t + rest));
      assert [End, Start] == [End] + [Start];
      Assoc([End], [Start], t);
      Assoc([End], [Start] + t, rest);
    }
  }

  lemma SkipEnd(rows: seq<Row>)
    ensures Documents([End] + rows) == Documents(rows)
  {
    Cons(End, rows);
  }

  // ----- every document is well formed -----

  ghost predicate Leaves(entries: seq<Entry>) {
    forall i :: 0 <= i < |entries| ==> entries[i].node.Leaf?
  }

  lemma LeavesSolid(entries: seq<Entry>)
    requires Leaves(entries)
    ensures Solid(entries)
  {
  }

  lemma StructSolid(key: Key, size: nat, fields: seq<Entry>)
    requires Solid(fields)
    ensures SolidEntry(Struct(key, size, fields))
  {
    var e := Struct(key, size, fields).node.entries;
    forall i | 0 <= i < |e|
      ensures SolidEntry(e[i])
    {
      if i > 0 {
        assert e[i] == fields[i - 1];
      }
    }
  }

  lemma SolidConcat(a: seq<Entry>, b: seq<Entry>)
    requires Solid(a) && Solid(b)
    ensures Solid(a + b)
  {
  }

  lemma SolidOne(e: Entry)
    requires SolidEntry(e)
    ensures Solid([e])
  {
  }

  lemma EventSolid(ev: DisplayEvent)
    ensures SolidEntry(EventTree(ev))
  {
    hide Struct;
    LeavesSolid(EventFields(ev));
    StructSolid(KEY_DISPLAY_EVENT_T, SIZEOF_EVENT, EventFields(ev));
  }

  lemma FrontGroupsLeaves(h: Gralloc)
    ensures Leaves(NativeFields(h.base)) && Leaves(PlanesFields(h.planes)) && Leaves(ExtentFields(h.extent))
  {
    hide Int, Unsigned, Array;
  }

  lemma BackGroupsLeaves(h: Gralloc)
    ensures Leaves(UsageFields(h.usage)) && Leaves(FlagsFields(h.flags)) && Leaves(CodingFields(h.coding))
  {
    hide Int, Unsigned;
  }

  lemma GrallocSolid(h: Gralloc)
    ensures SolidEntry(GrallocTree(h))
  {
    hide Struct, Solid, SolidEntry, Leaves, NativeFields, PlanesFields, ExtentFields, UsageFields, FlagsFields,
        CodingFields;
    FrontGroupsLeaves(h);
    BackGroupsLeaves(h);
    LeavesSolid(NativeFields(h.base));
    LeavesSolid(PlanesFields(h.planes));
    LeavesSolid(ExtentFields(h.extent));
    LeavesSolid(UsageFields(h.usage));
    LeavesSolid(FlagsFields(h.flags));
    LeavesSolid(CodingFields(h.coding));
    StructSolid(KEY_NATIVE_HANDLE_T, SIZEOF_NATIVE, NativeFields(h.base));
    SolidOne(NativeTree(h.base));
    SolidSix([NativeTree(h.base)], PlanesFields(h.planes), ExtentFields(h.extent), UsageFields(h.usage),
        FlagsFields(h.flags),
             CodingFields(h.coding));
    StructSolid(KEY_CROS_GRALLOC_HANDLE_T, SIZEOF_GRALLOC, GrallocFields(h));
  }

  lemma SolidSix(a: seq<Entry>, b: seq<Entry>, c: seq<Entry>, d: seq<Entry>, e: seq<Entry>, f: seq<Entry>)
    requires Solid(a) && Solid(b) && Solid(c) && Solid(d) && Solid(e) && Solid(f)
    ensures Solid(a + b + c + d + e + f)
  {
    hide Solid;
    SolidConcat(a, b);
    SolidConcat(a + b, c);
    SolidConcat(a + b + c, d);
    SolidConcat(a + b + c + d, e);
    SolidConcat(a + b + c + d + e, f);
  }

  lemma ControlSolid(c: Control)
    ensures SolidEntry(ControlTree(c))
  {
    var v := [Int(KEY_LEFT, c.viewport.l), Int(KEY_TOP, c.viewport.t), Int(KEY_RIGHT, c.viewport.r),
        Int(KEY_BOTTOM, c.viewport.b)];
    LeavesSolid(v);
    StructSolid(KEY_VIEWPORT, SIZEOF_VIEWPORT, v);
    hide Struct;
    var f := ControlFields(c);
    assert f[4] == ViewportTree(c.viewport);
    assert Solid(f);
    hide ControlFields;
    StructSolid(KEY_DISPLAY_CONTROL_T, SIZEOF_CONTROL, f);
  }

  lemma InfoSolid(remote: u64)
    ensures SolidEntry(BufferInfoTree(remote))
  {
    hide Int, Struct;
    LeavesSolid([Int(KEY_REMOTE_HANDLE, Signed64(remote)), Int(KEY_DATA, 0)]);
    StructSolid(KEY_BUFFER_INFO_T, SIZEOF_BUFFER_INFO, [Int(KEY_REMOTE_HANDLE, Signed64(remote)), Int(KEY_DATA, 0)]);
  }

  lemma BufferSolid(b: Body)
    requires b.BufferBody?
    ensures Solid(BodyTree(b))
  {
    hide EventTree, BufferInfoTree, GrallocTree, ControlTree, SolidEntry;
    var head := [Int(KEY_STRUCT_SIZE, SIZEOF_EVENT + SIZEOF_BUFFER_INFO), EventTree(b.ev)];
    var info := if b.info.Some? then [BufferInfoTree(b.info.value)] else [];
    var handle := if b.handle.Some? then [GrallocTree(b.handle.value)] else [];
    var ctrl := if b.ctrl.Some? then [ControlTree(b.ctrl.value)] else [];
    BufferHeadSolid(b.ev);
    if b.info.Some? {
      InfoSolid(b.info.value);
      SolidOne(BufferInfoTree(b.info.value));
    }
    if b.handle.Some? {
      GrallocSolid(b.handle.value);
      SolidOne(GrallocTree(b.handle.value));
    }
    if b.ctrl.Some? {
      ControlSolid(b.ctrl.value);
      SolidOne(ControlTree(b.ctrl.value));
    }
    SolidNone();
    hide Solid;
    SolidSix(head, info, handle, ctrl, [], []);
    assert head + info + handle + ctrl + [] + [] == BufferFields(b.ev, b.info, b.handle, b.ctrl);
    MappingSolid(KEY_BUFFER_INFO_EVENT_T, BufferFields(b.ev, b.info, b.handle, b.ctrl));
  }

  lemma SolidNone()
    ensures Solid([])
  {
  }

  lemma BufferHeadSolid(ev: DisplayEvent)
    ensures Solid([Int(KEY_STRUCT_SIZE, SIZEOF_EVENT + SIZEOF_BUFFER_INFO), EventTree(ev)])
  {
    hide EventTree;
    EventSolid(ev);
  }

  lemma MappingSolid(key: Key, inner: seq<Entry>)
    requires inner != [] && Solid(inner)
    ensures Solid([Entry(key, Mapping(inner))])
  {
  }

  /** A struct of two structs, the first a display_event_t. */
  lemma PairSolid(key: Key, size: nat, ev: DisplayEvent, second: Entry)
    requires SolidEntry(second)
    ensures Solid([Struct(key, size, [EventTree(ev), second])])
  {
    hide EventTree, Struct;
    EventSolid(ev);
    assert Solid([EventTree(ev), second]);
    StructSolid(key, size, [EventTree(ev), second]);
  }

  lemma LeafStructSolid(key: Key, size: nat, fields: seq<Entry>)
    requires Leaves(fields)
    ensures SolidEntry(Struct(key, size, fields))
  {
    hide Struct;
    LeavesSolid(fields);
    StructSolid(key, size, fields);
  }

  lemma InfoBodySolid(ev: DisplayEvent, d: DisplayInfo)
    ensures Solid(BodyTree(InfoBody(ev, d)))
  {
    hide Solid, SolidEntry, EventTree, Struct, Int, Unsigned, Hex, Float, Array;
    LeafStructSolid(KEY_DISPLAY_INFO_T, SIZEOF_INFO, InfoFields(d) + RateFields(d));
    PairSolid(KEY_DISPLAY_INFO_EVENT_T, SIZEOF_EVENT + SIZEOF_INFO, ev, InfoTree(d));
  }

  lemma PortBodySolid(ev: DisplayEvent, p: DisplayPort)
    ensures Solid(BodyTree(PortBody(ev, p)))
  {
    hide Solid, SolidEntry, EventTree, Struct, Int, Unsigned, Hex, Float, Array;
    LeafStructSolid(KEY_DISPLAY_PORT_T, SIZEOF_PORT, [Unsigned(KEY_PORT, p.port), Unsigned(KEY_RESERVE, p.reserve)]);
    PairSolid(KEY_DISPLAY_PORT_EVENT_T, SIZEOF_EVENT + SIZEOF_PORT, ev, PortTree(p));
  }

  lemma AlphaBodySolid(ev: DisplayEvent, a: VideoAlpha)
    ensures Solid(BodyTree(AlphaBody(ev, a)))
  {
    hide Solid, SolidEntry, EventTree, Struct, Int, Unsigned, Hex, Float, Array;
    LeafStructSolid(KEY_SET_VIDEO_ALPHA_T, SIZEOF_ALPHA,
        [Unsigned(KEY_ENABLE, a.enable), Array(KEY_RESERVED, a.reserved)]);
    PairSolid(KEY_DISPLAY_SET_VIDEO_ALPHA_EVENT_T, SIZEOF_EVENT + SIZEOF_ALPHA, ev, AlphaTree(a));
  }

  lemma HeaderBodySolid(ev: DisplayEvent)
    ensures Solid(BodyTree(HeaderBody(ev)))
  {
    hide EventTree, SolidEntry;
    EventSolid(ev);
  }

  lemma BodySolid(b: Body)
    ensures Solid(BodyTree(b))
  {
    match b {
      case NoBody =>
      case HeaderBody(ev) =>
        HeaderBodySolid(ev);
      case BufferBody(_, _, _, _) =>
        BufferSolid(b);
      case InfoBody(ev, d) =>
        InfoBodySolid(ev, d);
      case PortBody(ev, p) =>
        PortBodySolid(ev, p);
      case AlphaBody(ev, a) =>
        AlphaBodySolid(ev, a);
    }
    hide BodyTree;
  }

  lemma DocSolid(d: Doc)
    ensures Solid(DocTree(d))
  {
    BodySolid(d.body);
    LeavesSolid(TallyFields(d.meta.counts));
    hide TallyFields, BodyTree;
    assert Solid(MetaFields(d.meta));
    hide MetaFields;
    assert SolidEntry(MetaTree(d.meta));
    SolidOne(MetaTree(d.meta));
    SolidConcat([MetaTree(d.meta)], BodyTree(d.body));
  }

  function Trees(docs: seq<Doc>): seq<seq<Entry>> {
    if docs == [] then [] else [DocTree(docs[0])] + Trees(docs[1..])
  }

  lemma FileRowsMarked(docs: seq<Doc>)
    ensures FileRows(docs) != [] ==> !FileRows(docs)[0].Text?
  {
    if docs != [] {
      assert DocRows(docs[0])[0] == Opening(docs[0].meta.eventId)[0];
    }
  }

  /** Loading a log file gives the trees of its documents, in order. */
  lemma {:induction false} FileReadsBack(docs: seq<Doc>)
    ensures LoadAll(Documents(FileRows(docs))) == Some(Trees(docs))
  {
    if docs == [] {
    } else {
      FileReadsBack(docs[1..]);
      FileRowsMarked(docs[1..]);
      DocumentsDoc(docs[0], FileRows(docs[1..]));
      DocSolid(docs[0]);
      BuildPrint(0, DocTree(docs[0]));
      hide DocRows, DocTree, Documents, Build, Print;
      Cons(Print(0, DocTree(docs[0])), Documents(FileRows(docs[1..])));
    }
  }
}
