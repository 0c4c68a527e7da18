/**
 The reader's side of the touch pipe: a consumer of Linux multi-touch protocol, type B
 ("Protocol Example B" of Documentation/input/multi-touch-protocol).  ABS_MT_SLOT selects a slot,
 the other ABS_MT events change that slot, a tracking id of -1 releases it, SYN_REPORT ends a frame.
 */
module TouchEvents {
  import opened Wrappers

  const MAX_SLOT := 10

  datatype InputEvent =
    | MtSlot(value: int)
    | MtTrackingId(value: int)
    | MtTouchMajor(value: int)
    | MtWidthMajor(value: int)
    | MtPressure(value: int)
    | MtPositionX(value: int)
    | MtPositionY(value: int)
    | BtnTouch(value: int)
    | SynReport

  datatype Touch = Touch(id: int, x: int, y: int, pressure: int)

  /** What a reader sees when a frame ends: the contact in each slot, if any, and BTN_TOUCH. */
  datatype Frame = Frame(contacts: seq<Option<Touch>>, touching: bool)

  datatype Consumer = Consumer(slot: int, slots: seq<Touch>, touching: bool, frames: seq<Frame>)
  {
    ghost predicate Valid() {
      |slots| == MAX_SLOT && 0 <= slot < MAX_SLOT
    }

    /** The contacts a reader sees: the slots whose tracking id is not -1. */
    function Active(): (m: seq<Option<Touch>>)
      ensures |m| == |slots|
      ensures forall i :: 0 <= i < |m| ==> m[i] == if slots[i].id == -1 then None else Some(slots[i])
    {
      seq(|slots|, i requires 0 <= i < |slots| => if slots[i].id == -1 then None else Some(slots[i]))
    }

    /** Replaces the touch in the selected slot. */
    function Put(touch: Touch): (c: Consumer)
      requires Valid()
      ensures c.Valid()
    {
      Consumer(slot, slots[slot := touch], touching, frames)
    }
  }

  function Initial(): (c: Consumer)
    ensures c.Valid()
  {
    Consumer(0, seq(MAX_SLOT, _ => Touch(-1, 0, 0, 0)), false, [])
  }

  function Feed(c: Consumer, e: InputEvent): (r: Consumer)
    requires c.Valid()
    ensures r.Valid()
  {
    match e
    case MtSlot(v) => if 0 <= v < MAX_SLOT then c.(slot := v) else c
    case MtTrackingId(v) => c.Put(c.slots[c.slot].(id := v))
    case MtPressure(v) => c.Put(c.slots[c.slot].(pressure := v))
    case MtPositionX(v) => c.Put(c.slots[c.slot].(x := v))
    case MtPositionY(v) => c.Put(c.slots[c.slot].(y := v))
    case BtnTouch(v) => c.(touching := v != 0)
    case SynReport => c.(frames := c.frames + [Frame(c.Active(), c.touching)])
    case _ => c
  }

  /** The consumer after reading the given events from the start. */
  function Consume(events: seq<InputEvent>): (c: Consumer)
    ensures c.Valid()
  {
    if events == [] then Initial()
    else Feed(Consume(events[..|events| - 1]), events[|events| - 1])
  }

  lemma {:induction false} ConsumeOneMore(events: seq<InputEvent>, e: InputEvent)
    ensures Consume(events + [e]) == Feed(Consume(events), e)
  {
    assert (events + [e])[..|events|] == events;
  }

  /** Reads a burst of events one after the other. */
  function FeedAll(c: Consumer, events: seq<InputEvent>): (r: Consumer)
    requires c.Valid()
    ensures r.Valid()
    decreases |events|
  {
    if events == [] then c else FeedAll(Feed(c, events[0]), events[1..])
  }

  lemma {:induction false} ConsumeAppend(events: seq<InputEvent>, burst: seq<InputEvent>)
    ensures Consume(events + burst) == FeedAll(Consume(events), burst)
    decreases |burst|
  {
    if burst == [] {
      assert events + burst == events;
    } else {
      ConsumeOneMore(events, burst[0]);
      ConsumeAppend(events + [burst[0]], burst[1..]);
      assert events + burst == events + [burst[0]] + burst[1..];
    }
  }

  lemma {:induction false} FeedAppend(c: Consumer, a: seq<InputEvent>, b: seq<InputEvent>)
    requires c.Valid()
    ensures FeedAll(c, a + b) == FeedAll(FeedAll(c, a), b)
    decreases |a|
  {
    if a == [] {
      assert a + b == b;
    } else {
      FeedAppend(Feed(c, a[0]), a[1..], b);
      assert (a + b)[1..] == a[1..] + b;
    }
  }
}
