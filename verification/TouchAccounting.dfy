/**
 What a reader of the touch pipe really sees, for every run of commands, resets included.

 SendReset forgets contacts without releasing them: it writes no tracking id of -1 and leaves
 mEnabledSlots as it was.  A Ledger keeps the forgotten contacts ("stale") and how many there have
 ever been ("dropped"); the receiver and a protocol B consumer of its events both follow it exactly.
 */
module TouchAccounting {
  import opened Wrappers
  import opened TouchEvents
  import opened TouchReceiver

  /** A slot as a reader of the pipe should understand it. */
  datatype SlotState =
    | Free
    | Held(touch: Touch)   // the receiver has a contact here
    | Stale(touch: Touch)  // the receiver forgot this contact in a reset, the reader was never told

  datatype Ledger = Ledger(slots: seq<SlotState>, next: int, dropped: nat, frames: seq<Frame>)
  {
    /** What mEnabledSlots counts. */
    function Counted(): nat {
      CountHeld(slots) + dropped
    }

    function Contacts(): (m: seq<Option<Touch>>)
      ensures |m| == |slots|
      ensures forall i :: 0 <= i < |m| ==> m[i] == if slots[i].Free? then None else Some(slots[i].touch)
    {
      seq(|slots|, i requires 0 <= i < |slots| => if slots[i].Free? then None else Some(slots[i].touch))
    }

    /** The frame a SYN_REPORT would show now. */
    function Shown(): Frame {
      Frame(Contacts(), Counted() > 0)
    }
  }

  function Empty(): Ledger {
    Ledger(seq(MAX_SLOT, _ => Free), 0, 0, [])
  }

  function CountHeld(slots: seq<SlotState>): (n: nat)
    ensures n <= |slots|
  {
    if slots == [] then 0
    else CountHeld(slots[..|slots| - 1]) + if slots[|slots| - 1].Held? then 1 else 0
  }

  lemma {:induction false} CountUpdate(slots: seq<SlotState>, i: int, v: SlotState)
    requires 0 <= i < |slots|
    ensures CountHeld(slots[i := v]) + (if slots[i].Held? then 1 else 0) == CountHeld(slots) + if v.Held? then 1 else 0
  {
    var last := |slots| - 1;
    if i == last {
      assert slots[i := v][..last] == slots[..last];
    } else {
      CountUpdate(slots[..last], i, v);
      assert slots[i := v][..last] == slots[..last][i := v];
    }
  }

  lemma {:induction false} CountNone(slots: seq<SlotState>)
    ensures CountHeld(slots) == 0 <==> forall i :: 0 <= i < |slots| ==> !slots[i].Held?
  {
    if slots != [] {
      var last := |slots| - 1;
      CountNone(slots[..last]);
      assert forall i :: 0 <= i < last ==> slots[i] == slots[..last][i];
    }
  }

  lemma {:induction false} CountAll(slots: seq<SlotState>)
    ensures CountHeld(slots) == |slots| <==> forall i :: 0 <= i < |slots| ==> slots[i].Held?
  {
    if slots != [] {
      var last := |slots| - 1;
      CountAll(slots[..last]);
      assert forall i :: 0 <= i < last ==> slots[i] == slots[..last][i];
    }
  }

  function Forgotten(slots: seq<SlotState>): (r: seq<SlotState>)
    ensures |r| == |slots|
    ensures forall i :: 0 <= i < |r| ==> r[i] == if slots[i].Held? then Stale(slots[i].touch) else slots[i]
  {
    seq(|slots|, i requires 0 <= i < |slots| => if slots[i].Held? then Stale(slots[i].touch) else slots[i])
  }

  function Drop(t: Ledger): Ledger {
    if CountHeld(t.slots) == 0 then t
    else Ledger(Forgotten(t.slots), t.next, t.dropped + CountHeld(t.slots), t.frames + [t.Shown()])
  }

  /** A new contact on a slot, hiding whatever was stale there. */
  function Press(t: Ledger, slot: int, x: int, y: int, pressure: int): Ledger
    requires 0 <= slot < |t.slots|
  {
    Ledger(t.slots[slot := Held(Touch(t.next, x, y, pressure))], t.next + 1, t.dropped, t.frames)
  }

  predicate HeldAt(t: Ledger, slot: int) {
    0 <= slot < |t.slots| && t.slots[slot].Held?
  }

  function FollowDown(t: Ledger, slot: int, x: int, y: int, pressure: int): Ledger {
    if !(0 <= slot < |t.slots|) then t
    else Press(if HeldAt(t, slot) || t.Counted() >= MAX_SLOT then Drop(t) else t, slot, x, y, pressure)
  }

  function Lift(t: Ledger, slot: int): Ledger {
    if HeldAt(t, slot) then t.(slots := t.slots[slot := Free]) else t
  }

  function Slide(t: Ledger, slot: int, x: int, y: int, pressure: int): Ledger {
    if HeldAt(t, slot) then t.(slots := t.slots[slot := Held(Touch(t.slots[slot].touch.id, x, y, pressure))]) else t
  }

  function Report(t: Ledger): Ledger {
    t.(frames := t.frames + [t.Shown()])
  }

  function Follow(t: Ledger, c: Command): (r: Ledger)
    ensures |r.slots| == |t.slots|
  {
    match c
    case Down(slot, x, y, pressure) => FollowDown(t, slot, x, y, pressure)
    case Up(slot) => Lift(t, slot)
    case Move(slot, x, y, pressure) => Slide(t, slot, x, y, pressure)
    case Commit => Report(t)
    case Reset => Drop(t)
    case Wait(_) => t
    case Ignored => t
  }

  function FollowAll(t: Ledger, commands: seq<Command>): (r: Ledger)
    ensures |r.slots| == |t.slots|
  {
    if commands == [] then t
    else Follow(FollowAll(t, commands[..|commands| - 1]), commands[|commands| - 1])
  }

  // ----- the invariant -----

  /** mContacts agrees with the ledger. */
  ghost predicate SameContacts(contacts: seq<Contact>, slots: seq<SlotState>) {
    && |contacts| == |slots| == MAX_SLOT
    && forall i :: 0 <= i < MAX_SLOT ==>
         && (contacts[i].enabled <==> slots[i].Held?)
         && (slots[i].Held? ==> contacts[i].trackingId == slots[i].touch.id)
  }

  /** Tracking ids shown to the reader are pairwise distinct and already handed out. */
  ghost predicate FreshIds(t: Ledger) {
    && 0 <= t.next
    && (forall i :: 0 <= i < |t.slots| && !t.slots[i].Free? ==> 0 <= t.slots[i].touch.id < t.next)
    && (forall i, j :: 0 <= i < j < |t.slots| && !t.slots[i].Free? && !t.slots[j].Free? ==>
          t.slots[i].touch.id != t.slots[j].touch.id)
  }

  /** A consumer that has read all events shows the ledger's contacts, touch state and frames. */
  ghost predicate Shows(c: Consumer, t: Ledger) {
    && c.Valid()
    && c.Active() == t.Contacts()
    && c.touching == (t.Counted() > 0)
    && c.frames == t.frames
  }

  ghost predicate Matches(s: State, t: Ledger) {
    && SameContacts(s.contacts, t.slots)
    && FreshIds(t)
    && s.trackingId == t.next
    && s.enabledSlots == t.Counted()
    && Shows(Consume(s.events), t)
  }

  // ----- bursts of events -----

  /** What one burst on a slot does to the consumer. */
  lemma GeometryFed(c: Consumer, x: int, y: int, pressure: int)
    requires c.Valid()
    ensures FeedAll(c, Geometry(x, y, pressure)) == c.Put(Touch(c.slots[c.slot].id, x, y, pressure))
  {
    var g := Geometry(x, y, pressure);
    FeedFour(c, g[0], g[1], g[2], g[3]);
    FeedAppend(c, g[..4], g[4..]);
    assert g == g[..4] + g[4..];
    assert g[..4] == [g[0], g[1], g[2], g[3]];
    assert g[4..] == [g[4]];
    FeedOne(FeedAll(c, g[..4]), g[4]);
  }

  lemma FeedOne(c: Consumer, a: InputEvent)
    requires c.Valid()
    ensures FeedAll(c, [a]) == Feed(c, a)
  {
    assert [a][1..] == [];
  }

  lemma FeedTwo(c: Consumer, a: InputEvent, b: InputEvent)
    requires c.Valid()
    ensures FeedAll(c, [a, b]) == Feed(Feed(c, a), b)
  {
    assert [a, b][1..] == [b];
    FeedOne(Feed(c, a), b);
  }

  lemma FeedFour(c: Consumer, a: InputEvent, b: InputEvent, d: InputEvent, e: InputEvent)
    requires c.Valid()
    ensures FeedAll(c, [a, b, d, e]) == Feed(Feed(Feed(Feed(c, a), b), d), e)
  {
    FeedTwo(c, a, b);
    FeedTwo(Feed(Feed(c, a), b), d, e);
    FeedAppend(c, [a, b], [d, e]);
    assert [a, b, d, e] == [a, b] + [d, e];
  }

  lemma DownFed(c: Consumer, slot: int, id: int, first: bool, x: int, y: int, pressure: int)
    requires c.Valid() && InRange(slot)
    ensures FeedAll(c, [MtSlot(slot), MtTrackingId(id)] + (if first then [BtnTouch(1)] else [])
              + Geometry(x, y, pressure))
         == Consumer(slot, c.slots[slot := Touch(id, x, y, pressure)], c.touching || first, c.frames)
  {
    var head := [MtSlot(slot), MtTrackingId(id)];
    var touch := if first then [BtnTouch(1)] else [];
    FeedTwo(c, head[0], head[1]);
    FeedAppend(c, head, touch);
    if first { FeedOne(FeedAll(c, head), BtnTouch(1)); }
    FeedAppend(c, head + touch, Geometry(x, y, pressure));
    GeometryFed(FeedAll(c, head + touch), x, y, pressure);
  }

  lemma UpFed(c: Consumer, slot: int, last: bool)
    requires c.Valid() && InRange(slot)
    ensures FeedAll(c, [MtSlot(slot), MtTrackingId(-1)] + (if last then [BtnTouch(0)] else []))
         == Consumer(slot, c.slots[slot := c.slots[slot].(id := -1)], c.touching && !last, c.frames)
  {
    var head := [MtSlot(slot), MtTrackingId(-1)];
    var touch := if last then [BtnTouch(0)] else [];
    FeedTwo(c, head[0], head[1]);
    FeedAppend(c, head, touch);
    if last { FeedOne(FeedAll(c, head), BtnTouch(0)); }
  }

  lemma MoveFed(c: Consumer, slot: int, x: int, y: int, pressure: int)
    requires c.Valid() && InRange(slot)
    ensures FeedAll(c, [MtSlot(slot)] + Geometry(x, y, pressure))
         == Consumer(slot, c.slots[slot := Touch(c.slots[slot].id, x, y, pressure)], c.touching, c.frames)
  {
    FeedOne(c, MtSlot(slot));
    FeedAppend(c, [MtSlot(slot)], Geometry(x, y, pressure));
    GeometryFed(Feed(c, MtSlot(slot)), x, y, pressure);
  }

  // ----- one command keeps the invariant -----

  lemma DropShown(c: Consumer, t: Ledger)
    requires Shows(c, t) && CountHeld(t.slots) != 0
    ensures Shows(Feed(c, SynReport), Drop(t))
  {
    CountNone(Forgotten(t.slots));
  }

  lemma ResetStep(s: State, t: Ledger)
    requires Matches(s, t)
    ensures Matches(AfterReset(s), Drop(t))
  {
    hide Consume, CountHeld;
    CountNone(t.slots);
    assert AnyEnabled(s.contacts) <==> CountHeld(t.slots) != 0;
    if CountHeld(t.slots) != 0 {
      ConsumeOneMore(s.events, SynReport);
      DropShown(Consume(s.events), t);
      CountNone(Forgotten(t.slots));
    }
  }

  /** A down on a slot the receiver holds to be free, with the counter below its limit or just reset. */
  lemma PressStep(s: State, t: Ledger, slot: int, x: int, y: int, pressure: int)
    requires Matches(s, t) && InRange(slot) && !HeldAt(t, slot)
    ensures Matches(Pressed(s, slot, x, y, pressure), Press(t, slot, x, y, pressure))
  {
    hide Consume, CountHeld, Geometry;
    var touch := if s.enabledSlots == 0 then [BtnTouch(1)] else [];
    var c := Consume(s.events);
    ConsumeAppend(s.events, [MtSlot(slot), MtTrackingId(s.trackingId)] + touch + Geometry(x, y, pressure));
    DownFed(c, slot, s.trackingId, s.enabledSlots == 0, x, y, pressure);
    CountUpdate(t.slots, slot, Held(Touch(t.next, x, y, pressure)));
    assert Consume(Pressed(s, slot, x, y, pressure).events).Active() == Press(t, slot, x, y, pressure).Contacts();
  }

  lemma DownStep(s: State, t: Ledger, slot: int, x: int, y: int, pressure: int)
    requires Matches(s, t)
    ensures Matches(AfterDown(s, slot, x, y, pressure), FollowDown(t, slot, x, y, pressure))
  {
    if InRange(slot) {
      if HeldAt(t, slot) || t.Counted() >= MAX_SLOT {
        ResetStep(s, t);
        CountNone(t.slots);
        PressStep(AfterReset(s), Drop(t), slot, x, y, pressure);
      } else {
        PressStep(s, t, slot, x, y, pressure);
      }
    }
  }

  lemma UpStep(s: State, t: Ledger, slot: int)
    requires Matches(s, t)
    ensures Matches(AfterUp(s, slot), Lift(t, slot))
  {
    hide Consume, CountHeld;
    if HeldAt(t, slot) {
      var touch := if s.enabledSlots == 1 then [BtnTouch(0)] else [];
      ConsumeAppend(s.events, [MtSlot(slot), MtTrackingId(-1)] + touch);
      UpFed(Consume(s.events), slot, s.enabledSlots == 1);
      CountUpdate(t.slots, slot, Free);
      assert Consume(AfterUp(s, slot).events).Active() == Lift(t, slot).Contacts();
    }
  }

  lemma MoveStep(s: State, t: Ledger, slot: int, x: int, y: int, pressure: int)
    requires Matches(s, t)
    ensures Matches(AfterMove(s, slot, x, y, pressure), Slide(t, slot, x, y, pressure))
  {
    hide Consume, CountHeld, Geometry;
    if HeldAt(t, slot) {
      ConsumeAppend(s.events, [MtSlot(slot)] + Geometry(x, y, pressure));
      MoveFed(Consume(s.events), slot, x, y, pressure);
      CountUpdate(t.slots, slot, Held(Touch(t.slots[slot].touch.id, x, y, pressure)));
      assert Consume(s.events).Active()[slot] == t.Contacts()[slot];
      assert Consume(AfterMove(s, slot, x, y, pressure).events).Active() == Slide(t, slot, x, y, pressure).Contacts();
    }
  }

  lemma CommitStep(s: State, t: Ledger)
    requires Matches(s, t)
    ensures Matches(AfterCommit(s), Report(t))
  {
    ConsumeOneMore(s.events, SynReport);
  }

  lemma CommandStep(s: State, t: Ledger, c: Command)
    requires Matches(s, t)
    ensures Matches(Execute(s, c), Follow(t, c))
  {
    hide Matches, AfterDown, AfterUp, AfterMove, AfterReset;
    hide FollowDown, Lift, Slide, Report, Drop;
    match c
    case Down(slot, x, y, pressure) => DownStep(s, t, slot, x, y, pressure);
    case Up(slot) => UpStep(s, t, slot);
    case Move(slot, x, y, pressure) => MoveStep(s, t, slot, x, y, pressure);
    case Commit => CommitStep(s, t);
    case Reset => ResetStep(s, t);
    case Wait(_) =>
    case Ignored =>
  }

  /** The ledger is exact for every run of commands. */
  lemma {:induction false} LedgerIsExact(commands: seq<Command>)
    ensures Matches(Run(Idle(), commands), FollowAll(Empty(), commands))
  {
    if commands == [] {
      CountNone(Empty().slots);
      assert Consume([]).Active() == Empty().Contacts();
    } else {
      var before := commands[..|commands| - 1];
      LedgerIsExact(before);
      CommandStep(Run(Idle(), before), FollowAll(Empty(), before), commands[|commands| - 1]);
    }
  }
}
