/** The rows of a document as a thread writes them: what opens it, one row per count, then the body. */
module LogLines {
  import opened Wrappers
  import opened Sequences
  import opened YmlTree
  import opened Text
  import opened LogStructs
  import opened LogFile
  import opened ProfileLog

  const COUNTERS := 7

  const COUNT_KEYS: seq<Key> := [KEY_CREATE_BUFFER_EVENTS, KEY_REMOVE_BUFFER_EVENTS, KEY_DISPLAY_REQ_EVENTS,
                                 KEY_CHANGE_RESOLUTION_EVENTS, KEY_DISP_INFO_REQ_EVENTS, KEY_DISP_PORT_REQ_EVENTS,
                                 KEY_SET_ALPHA_EVENTS]

  /** Up to "counts:" */
  function Head(id: nat, kind: LogEvent, now: nat): seq<Row> {
    LogFile.Opening(id) + [Text(Line(0, KEY_EVENT, None))] + [Text(Line(1, KEY_METADATA, None))]
    + Written(2, Scalars(id, kind, now)) + [Text(Line(2, KEY_COUNTS, None))]
  }

  function CountRow(which: nat, value: nat): Row
    requires which < COUNTERS
  {
    Text(Line(3, COUNT_KEYS[which], Some(Plain(Dec(value)))))
  }

  function CountRows(seen: seq<nat>): seq<Row>
    requires |seen| <= COUNTERS
  {
    seq(|seen|, i requires 0 <= i < |seen| => CountRow(i, seen[i]))
  }

  function BodyRows(body: Body): seq<Row> {
    Written(1, BodyTree(body))
  }

  function TallyOf(seen: seq<nat>): Tally
    requires |seen| == COUNTERS
  {
    Tally(seen[0], seen[1], seen[2], seen[3], seen[4], seen[5], seen[6])
  }

  lemma CountRowsMore(seen: seq<nat>, value: nat)
    requires |seen| < COUNTERS
    ensures CountRows(seen + [value]) == CountRows(seen) + [CountRow(|seen|, value)]
  {
    hide CountRow;
  }

  lemma {:induction false} LeavesWritten(level: nat, fields: seq<Entry>)
    requires Leaves(fields)
    ensures |Written(level, fields)| == |fields|
    ensures forall i :: 0 <= i < |fields| ==>
      Written(level, fields)[i] == Text(Line(level, fields[i].key, Some(fields[i].node.value)))
  {
    if fields == [] {
    } else {
      LeavesWritten(level, fields[1..]);
      Uncons(fields);
      WrittenConcat(level, [fields[0]], fields[1..]);
      WrittenLeaf(level, fields[0].key, fields[0].node.value);
      hide Written;
    }
  }

  lemma CountRowsWritten(seen: seq<nat>)
    requires |seen| == COUNTERS
    ensures CountRows(seen) == Written(3, TallyFields(TallyOf(seen)))
  {
    var fields := TallyFields(TallyOf(seen));
    assert Leaves(fields);
    LeavesWritten(3, fields);
    hide Written;
    forall i | 0 <= i < COUNTERS
      ensures CountRows(seen)[i] == Written(3, fields)[i]
    {
      assert fields[i] == Int(COUNT_KEYS[i], seen[i]);
    }
  }

  /** All rows written, the document is what a single-threaded logger writes for these counts. */
  lemma DocumentRows(id: nat, kind: LogEvent, now: nat, seen: seq<nat>, body: Body)
    requires |seen| == COUNTERS
    ensures Head(id, kind, now) + CountRows(seen) + BodyRows(body)
         == DocRows(Doc(Meta(id, kind, now, TallyOf(seen)), body))
  {
    var meta, scalars := Meta(id, kind, now, TallyOf(seen)), Scalars(id, kind, now);
    CountRowsWritten(seen);
    assert scalars + [Entry(KEY_COUNTS, Mapping(TallyFields(meta.counts)))] == MetaFields(meta);
    hide Written, TallyFields, TallyOf, CountRows, BodyTree, DocRows, MetaFields, Scalars;
    MetadataRows([], meta, scalars);
    assert [] + DocRows(Doc(meta, NoBody)) == DocRows(Doc(meta, NoBody));
    assert (if id != 0 then [] + [End] else []) + [Start] == LogFile.Opening(id);
    GrowBody(meta, body);
  }
}
