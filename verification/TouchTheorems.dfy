/**
 Consequences of the exact ledger: refinement of the ideal touch machine for runs that reset nothing,
 and what is left of it for every other run.
 */
module TouchTheorems {
  import opened Wrappers
  import opened TouchEvents
  import opened TouchReceiver
  import opened TouchAccounting

  // ----- the ideal machine: contacts go down, move, come up; a reset lifts them all -----

  datatype Ideal = Ideal(contacts: seq<Option<Touch>>, next: int, frames: seq<Frame>)
  {
    predicate TouchedAt(slot: int) {
      0 <= slot < |contacts| && contacts[slot].Some?
    }

    predicate Touched() {
      exists i :: 0 <= i < |contacts| && TouchedAt(i)
    }

    function Reported(): Ideal {
      this.(frames := frames + [Frame(contacts, Touched())])
    }

    function Lifted(): Ideal {
      this.(contacts := seq(|contacts|, _ => None))
    }
  }

  function Untouched(): Ideal {
    Ideal(seq(MAX_SLOT, _ => None), 0, [])
  }

  function IdealStep(m: Ideal, c: Command): (r: Ideal)
    ensures |r.contacts| == |m.contacts|
  {
    match c
    case Down(slot, x, y, pressure) =>
      if 0 <= slot < |m.contacts| then
        m.(contacts := m.contacts[slot := Some(Touch(m.next, x, y, pressure))], next := m.next + 1)
      else m
    case Up(slot) =>
      if m.TouchedAt(slot) then m.(contacts := m.contacts[slot := None]) else m
    case Move(slot, x, y, pressure) =>
      if m.TouchedAt(slot) then
        m.(contacts := m.contacts[slot := Some(Touch(m.contacts[slot].value.id, x, y, pressure))])
      else m
    case Commit => m.Reported()
    case Reset => if m.Touched() then m.Reported().Lifted() else m
    case _ => m
  }

  function IdealRun(commands: seq<Command>): (m: Ideal)
    ensures |m.contacts| == MAX_SLOT
  {
    if commands == [] then Untouched()
    else IdealStep(IdealRun(commands[..|commands| - 1]), commands[|commands| - 1])
  }

  /** The command makes the receiver forget nothing. */
  predicate Gentle(m: Ideal, c: Command) {
    && (c.Down? ==> !m.TouchedAt(c.slot))
    && (c.Reset? ==> !m.Touched())
  }

  predicate GentleRun(commands: seq<Command>) {
    commands == [] ||
    var before := commands[..|commands| - 1];
    GentleRun(before) && Gentle(IdealRun(before), commands[|commands| - 1])
  }

  // ----- gentle runs refine the ideal machine -----

  ghost predicate Simulates(t: Ledger, m: Ideal) {
    && |t.slots| == |m.contacts| == MAX_SLOT
    && t.dropped == 0 && t.next == m.next && t.frames == m.frames
    && (forall i :: 0 <= i < MAX_SLOT ==> !t.slots[i].Stale?)
    && t.Contacts() == m.contacts
  }

  lemma SimulatedTouch(t: Ledger, m: Ideal)
    requires Simulates(t, m)
    ensures t.Shown() == Frame(m.contacts, m.Touched())
    ensures CountHeld(t.slots) > 0 <==> m.Touched()
    ensures forall i :: HeldAt(t, i) <==> m.TouchedAt(i)
  {
    CountNone(t.slots);
    forall i ensures HeldAt(t, i) <==> m.TouchedAt(i) {
      if 0 <= i < MAX_SLOT { assert t.Contacts()[i] == m.contacts[i]; }
    }
    if m.Touched() {
      var i :| 0 <= i < |m.contacts| && m.TouchedAt(i);
      assert HeldAt(t, i);
    }
    if CountHeld(t.slots) > 0 {
      var i :| 0 <= i < |t.slots| && t.slots[i].Held?;
      assert m.TouchedAt(i);
    }
  }

  lemma GentleStep(t: Ledger, m: Ideal, c: Command)
    requires Simulates(t, m) && Gentle(m, c)
    ensures Simulates(Follow(t, c), IdealStep(m, c))
  {
    SimulatedTouch(t, m);
    CountAll(t.slots);
    if c.Move? && HeldAt(t, c.slot) {
      assert t.Contacts()[c.slot] == m.contacts[c.slot];
    }
    assert Follow(t, c).Contacts() == IdealStep(m, c).contacts;
  }

  /** A command that is not gentle drops at least one contact. */
  lemma RoughStep(t: Ledger, m: Ideal, c: Command)
    requires Simulates(t, m) && !Gentle(m, c)
    ensures Follow(t, c).dropped > 0
  {
    SimulatedTouch(t, m);
    CountNone(t.slots);
  }

  /** The receiver forgets no contact exactly when every down is on a free slot and every reset finds none down. */
  lemma {:induction false} GentleIffNothingDropped(commands: seq<Command>)
    ensures FollowAll(Empty(), commands).dropped == 0 <==> GentleRun(commands)
    ensures GentleRun(commands) ==> Simulates(FollowAll(Empty(), commands), IdealRun(commands))
  {
    if commands == [] {
      assert Empty().Contacts() == Untouched().contacts;
    } else {
      var before, c := commands[..|commands| - 1], commands[|commands| - 1];
      GentleIffNothingDropped(before);
      if GentleRun(before) {
        if Gentle(IdealRun(before), c) {
          GentleStep(FollowAll(Empty(), before), IdealRun(before), c);
        } else {
          RoughStep(FollowAll(Empty(), before), IdealRun(before), c);
        }
      }
    }
  }

  /**
   Main refinement: after a gentle run a protocol B reader shows exactly the ideal contacts (slot, tracking
   id, position, pressure), every frame it reported is the ideal one, BTN_TOUCH is on iff some contact is
   down, and mEnabledSlots counts the contacts.
   */
  lemma GentleRunsRefineIdeal(commands: seq<Command>)
    requires GentleRun(commands)
    ensures var s, m := Run(Idle(), commands), IdealRun(commands);
            var c := Consume(s.events);
            && c.Active() == m.contacts
            && c.touching == m.Touched()
            && c.frames == m.frames
            && s.enabledSlots == CountEnabled(s.contacts)
  {
    LedgerIsExact(commands);
    GentleIffNothingDropped(commands);
    SimulatedTouch(FollowAll(Empty(), commands), IdealRun(commands));
    SameCount(Run(Idle(), commands).contacts, FollowAll(Empty(), commands).slots);
  }

  // ----- every run -----

  function CountEnabled(contacts: seq<Contact>): nat {
    if contacts == [] then 0
    else CountEnabled(contacts[..|contacts| - 1]) + if contacts[|contacts| - 1].enabled then 1 else 0
  }

  lemma {:induction false} SameCount(contacts: seq<Contact>, slots: seq<SlotState>)
    requires |contacts| == |slots|
    requires forall i :: 0 <= i < |slots| ==> (contacts[i].enabled <==> slots[i].Held?)
    ensures CountEnabled(contacts) == CountHeld(slots)
  {
    if slots != [] {
      SameCount(contacts[..|contacts| - 1], slots[..|slots| - 1]);
    }
  }

  /** The number of contacts the receiver forgot in resets during a run. */
  function Dropped(commands: seq<Command>): nat {
    FollowAll(Empty(), commands).dropped
  }

  /**
   mEnabledSlots is the enabled contacts plus all dropped ones, and BTN_TOUCH follows it.  So BTN_TOUCH
   tells the truth iff nothing was dropped or some contact is down.
   */
  lemma EnabledSlotsAccounting(commands: seq<Command>)
    ensures var s := Run(Idle(), commands);
            var c, n := Consume(s.events), CountEnabled(s.contacts);
            && s.enabledSlots == n + Dropped(commands)
            && c.touching == (s.enabledSlots > 0)
            && ((c.touching <==> n > 0) <==> (Dropped(commands) == 0 || n > 0))
  {
    LedgerIsExact(commands);
    SameCount(Run(Idle(), commands).contacts, FollowAll(Empty(), commands).slots);
  }

  /** Enabled contacts have distinct tracking ids below mTrackingId, and the reader shows them with these ids. */
  lemma TrackingIdsDistinct(commands: seq<Command>, i: int, j: int)
    requires 0 <= i < j < MAX_SLOT
    ensures var s := Run(Idle(), commands);
            && (s.contacts[i].enabled ==>
                  && 0 <= s.contacts[i].trackingId < s.trackingId
                  && Consume(s.events).Active()[i].Some?
                  && Consume(s.events).Active()[i].value.id == s.contacts[i].trackingId)
            && (s.contacts[i].enabled && s.contacts[j].enabled ==>
                  s.contacts[i].trackingId != s.contacts[j].trackingId)
  {
    LedgerIsExact(commands);
    assert Consume(Run(Idle(), commands).events).Active()[i] == FollowAll(Empty(), commands).Contacts()[i];
  }

  /** Both counters grow by at most one a command, so runs shorter than 2^31 never overflow 32 bits. */
  lemma {:induction false} CountersBounded(commands: seq<Command>)
    ensures 0 <= Run(Idle(), commands).trackingId <= |commands|
    ensures 0 <= Run(Idle(), commands).enabledSlots <= |commands|
  {
    if commands != [] {
      CountersBounded(commands[..|commands| - 1]);
    }
  }

  // ----- after a drop -----

  lemma {:induction false} FollowAppend(t: Ledger, a: seq<Command>, b: seq<Command>)
    ensures FollowAll(t, a + b) == FollowAll(FollowAll(t, a), b)
    decreases |b|
  {
    if b == [] {
      assert a + b == a;
    } else {
      FollowAppend(t, a, b[..|b| - 1]);
      assert (a + b)[..|a + b| - 1] == a + b[..|b| - 1];
    }
  }

  /** Up on every slot below n. */
  function Ups(n: nat): seq<Command> {
    if n == 0 then [] else Ups(n - 1) + [Up(n - 1)]
  }

  lemma {:induction false} UpsLift(t: Ledger, n: nat)
    requires n <= |t.slots|
    ensures var r := FollowAll(t, Ups(n));
            && r.dropped == t.dropped
            && forall i :: 0 <= i < |t.slots| ==> r.slots[i] == if i < n && t.slots[i].Held? then Free else t.slots[i]
  {
    if n > 0 {
      UpsLift(t, n - 1);
      assert Ups(n)[..|Ups(n)| - 1] == Ups(n - 1);
    }
  }

  /** Lift every finger: the reader still reports a touch exactly when the run was not gentle. */
  lemma TouchSticksIffRough(commands: seq<Command>)
    ensures var s := Run(Idle(), commands + Ups(MAX_SLOT));
            && CountEnabled(s.contacts) == 0
            && (Consume(s.events).touching <==> !GentleRun(commands))
  {
    hide Ups, Follow, FollowAll, Execute, Run, GentleRun, Consume, FreshIds;
    FollowAppend(Empty(), commands, Ups(MAX_SLOT));
    var t := FollowAll(Empty(), commands + Ups(MAX_SLOT));
    UpsLift(FollowAll(Empty(), commands), MAX_SLOT);
    CountNone(t.slots);
    EnabledSlotsAccounting(commands + Ups(MAX_SLOT));
    LedgerIsExact(commands + Ups(MAX_SLOT));
    SameCount(Run(Idle(), commands + Ups(MAX_SLOT)).contacts, t.slots);
    GentleIffNothingDropped(commands);
  }

  /** More events, none of them BTN_TOUCH. */
  ghost predicate Quiet(before: seq<InputEvent>, now: seq<InputEvent>) {
    before <= now && forall i :: |before| <= i < |now| ==> !now[i].BtnTouch?
  }

  lemma QuietAppend(events: seq<InputEvent>, more: seq<InputEvent>)
    requires forall i :: 0 <= i < |more| ==> !more[i].BtnTouch?
    ensures Quiet(events, events + more)
  {
  }

  lemma QuietTwice(a: seq<InputEvent>, b: seq<InputEvent>, c: seq<InputEvent>)
    requires Quiet(a, b) && Quiet(b, c)
    ensures Quiet(a, c)
  {
  }

  lemma QuietReset(s: State)
    ensures Quiet(s.events, AfterReset(s).events) && AfterReset(s).enabledSlots == s.enabledSlots
  {
    QuietAppend(s.events, [SynReport]);
    hide AnyEnabled, Disabled;
  }

  lemma QuietPress(s: State, slot: int, x: int, y: int, pressure: int)
    requires Shaped(s) && InRange(slot) && s.enabledSlots > 0
    ensures Quiet(s.events, Pressed(s, slot, x, y, pressure).events)
  {
    QuietAppend(s.events, [MtSlot(slot), MtTrackingId(s.trackingId)] + [] + Geometry(x, y, pressure));
    hide Quiet;
  }

  /** With two contacts counted, or one and none lifted, a command sends no BTN_TOUCH. */
  lemma QuietCommand(s: State, c: Command)
    requires Shaped(s) && s.enabledSlots > 0
    requires c.Up? && InRange(c.slot) && s.contacts[c.slot].enabled ==> s.enabledSlots > 1
    ensures Quiet(s.events, Execute(s, c).events)
  {
    match c {
      case Down(slot, x, y, pressure) =>
        hide Quiet, Pressed, AfterReset;
        QuietAppend(s.events, []);
        assert s.events + [] == s.events;
        if InRange(slot) {
          QuietPress(s, slot, x, y, pressure);
          QuietReset(s);
          QuietPress(AfterReset(s), slot, x, y, pressure);
          QuietTwice(s.events, AfterReset(s).events, Pressed(AfterReset(s), slot, x, y, pressure).events);
        }
      case Up(slot) =>
        QuietAppend(s.events, [MtSlot(slot), MtTrackingId(-1)] + []);
      case Move(slot, x, y, pressure) =>
        QuietAppend(s.events, [MtSlot(slot)] + Geometry(x, y, pressure));
      case Commit =>
        QuietAppend(s.events, [SynReport]);
      case Reset =>
        QuietReset(s);
      case Wait(_) =>
      case Ignored =>
    }
  }

  lemma StillDropped(t: Ledger, c: Command)
    ensures Follow(t, c).dropped >= t.dropped
  {
    hide CountHeld, Forgotten;
  }

  lemma QuietStep(s: State, t: Ledger, c: Command)
    requires Matches(s, t) && t.dropped > 0
    ensures Follow(t, c).dropped > 0 && Quiet(s.events, Execute(s, c).events)
  {
    hide Consume, CountHeld, Shows, FreshIds, Follow, Execute, Quiet;
    StillDropped(t, c);
    CountNone(t.slots);
    if c.Up? && InRange(c.slot) && s.contacts[c.slot].enabled {
      assert t.slots[c.slot].Held?;
    }
    QuietCommand(s, c);
  }

  /** Once a contact has been dropped no BTN_TOUCH event is ever sent again. */
  lemma {:induction false} NoTouchEventAfterDrop(commands: seq<Command>, more: seq<Command>)
    requires Dropped(commands) > 0
    ensures Dropped(commands + more) > 0
    ensures Quiet(Run(Idle(), commands).events, Run(Idle(), commands + more).events)
    decreases |more|
  {
    hide Matches, Follow, Execute, Quiet;
    if more == [] {
      assert commands + more == commands;
      QuietAppend(Run(Idle(), commands).events, []);
      assert Run(Idle(), commands).events + [] == Run(Idle(), commands).events;
    } else {
      var front := more[..|more| - 1];
      NoTouchEventAfterDrop(commands, front);
      assert (commands + more)[..|commands + more| - 1] == commands + front;
      LedgerIsExact(commands + front);
      QuietStep(Run(Idle(), commands + front), FollowAll(Empty(), commands + front), more[|more| - 1]);
      QuietTwice(Run(Idle(), commands).events, Run(Idle(), commands + front).events,
                 Run(Idle(), commands + more).events);
    }
  }

  /** Once ten have been dropped every down resets first: just one contact is enabled after it. */
  lemma TenDropsLeaveOneContact(commands: seq<Command>, slot: int, x: int, y: int, pressure: int)
    requires Dropped(commands) >= MAX_SLOT && InRange(slot)
    ensures CountEnabled(Run(Idle(), commands + [Down(slot, x, y, pressure)]).contacts) == 1
  {
    var all := commands + [Down(slot, x, y, pressure)];
    assert all[..|all| - 1] == commands;
    var t := FollowAll(Empty(), commands);
    CountNone(t.slots);
    CountNone(Drop(t).slots);
    CountUpdate(Drop(t).slots, slot, Held(Touch(t.next, x, y, pressure)));
    LedgerIsExact(all);
    SameCount(Run(Idle(), all).contacts, FollowAll(Empty(), all).slots);
  }
}
