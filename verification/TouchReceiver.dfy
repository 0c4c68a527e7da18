/**
 VirtualInputReceiver: slots of contacts changed by down, up, move, commit and reset commands.
 The functions give the state after each command; the class updates its fields the way the
 receiver does and is proved against them.
 */
module TouchReceiver {
  import opened TouchEvents

  datatype Contact = Contact(enabled: bool, trackingId: int)

  datatype Command =
    | Down(slot: int, x: int, y: int, pressure: int)
    | Up(slot: int)
    | Move(slot: int, x: int, y: int, pressure: int)
    | Commit
    | Reset
    | Wait(ms: int)
    | Ignored

  /** mContacts, mTrackingId, mEnabledSlots and everything written to the pipe so far. */
  datatype State = State(contacts: seq<Contact>, trackingId: int, enabledSlots: int, events: seq<InputEvent>)

  ghost predicate Shaped(s: State) {
    |s.contacts| == MAX_SLOT
  }

  function Idle(): State {
    State(seq(MAX_SLOT, _ => Contact(false, 0)), 0, 0, [])
  }

  predicate InRange(slot: int) {
    0 <= slot < MAX_SLOT
  }

  function Geometry(x: int, y: int, pressure: int): seq<InputEvent> {
    [MtTouchMajor(4), MtWidthMajor(6), MtPressure(pressure), MtPositionX(x), MtPositionY(y)]
  }

  function Disabled(contacts: seq<Contact>): (r: seq<Contact>)
    ensures |r| == |contacts|
    ensures forall i :: 0 <= i < |r| ==> r[i] == contacts[i].(enabled := false)
  {
    seq(|contacts|, i requires 0 <= i < |contacts| => contacts[i].(enabled := false))
  }

  predicate AnyEnabled(contacts: seq<Contact>) {
    exists i :: 0 <= i < |contacts| && contacts[i].enabled
  }

  function AfterReset(s: State): State {
    if AnyEnabled(s.contacts) then
      s.(contacts := Disabled(s.contacts), events := s.events + [SynReport])
    else
      s
  }

  /** The part of SendDown after the reset test. */
  function Pressed(s: State, slot: int, x: int, y: int, pressure: int): (r: State)
    requires Shaped(s) && InRange(slot)
    ensures Shaped(r)
  {
    var touch := if s.enabledSlots == 0 then [BtnTouch(1)] else [];
    State(s.contacts[slot := Contact(true, s.trackingId)], s.trackingId + 1, s.enabledSlots + 1,
          s.events + ([MtSlot(slot), MtTrackingId(s.trackingId)] + touch + Geometry(x, y, pressure)))
  }

  function AfterDown(s: State, slot: int, x: int, y: int, pressure: int): (r: State)
    requires Shaped(s)
    ensures Shaped(r)
  {
    if !InRange(slot) then s
    else
      Pressed(if s.contacts[slot].enabled || s.enabledSlots >= MAX_SLOT then AfterReset(s) else s,
              slot, x, y, pressure)
  }

  function AfterUp(s: State, slot: int): (r: State)
    requires Shaped(s)
    ensures Shaped(r)
  {
    if s.enabledSlots == 0 || !InRange(slot) || !s.contacts[slot].enabled then s
    else
      var touch := if s.enabledSlots == 1 then [BtnTouch(0)] else [];
      State(s.contacts[slot := s.contacts[slot].(enabled := false)], s.trackingId, s.enabledSlots - 1,
            s.events + ([MtSlot(slot), MtTrackingId(-1)] + touch))
  }

  function AfterMove(s: State, slot: int, x: int, y: int, pressure: int): State
    requires Shaped(s)
  {
    if !InRange(slot) || !s.contacts[slot].enabled then s
    else s.(events := s.events + ([MtSlot(slot)] + Geometry(x, y, pressure)))
  }

  function AfterCommit(s: State): State {
    s.(events := s.events + [SynReport])
  }

  function Execute(s: State, c: Command): (r: State)
    requires Shaped(s)
    ensures Shaped(r)
  {
    match c
    case Down(slot, x, y, pressure) => AfterDown(s, slot, x, y, pressure)
    case Up(slot) => AfterUp(s, slot)
    case Move(slot, x, y, pressure) => AfterMove(s, slot, x, y, pressure)
    case Commit => AfterCommit(s)
    case Reset => AfterReset(s)
    case Wait(_) => s
    case Ignored => s
  }

  /** The state after a run of commands. */
  function Run(s: State, commands: seq<Command>): (r: State)
    requires Shaped(s)
    ensures Shaped(r)
  {
    if commands == [] then s
    else Execute(Run(s, commands[..|commands| - 1]), commands[|commands| - 1])
  }

  lemma {:induction false} RunAppend(s: State, a: seq<Command>, b: seq<Command>)
    requires Shaped(s)
    ensures Run(s, a + b) == Run(Run(s, a), b)
    decreases |b|
  {
    if b == [] {
      assert a + b == a;
    } else {
      var b' := b[..|b| - 1];
      RunAppend(s, a, b');
      assert (a + b)[..|a + b| - 1] == a + b';
    }
  }

  class VirtualInputReceiver {
    const mContacts: array<Contact>
    var mTrackingId: int
    var mEnabledSlots: int
    var pipe: seq<InputEvent>

    ghost predicate Valid()
      reads this
    {
      mContacts.Length == MAX_SLOT
    }

    ghost function View(): (s: State)
      requires Valid()
      reads this, mContacts
      ensures Shaped(s)
    {
      State(mContacts[..], mTrackingId, mEnabledSlots, pipe)
    }

    constructor ()
      ensures Valid() && fresh(mContacts)
      ensures View() == Idle()
    {
      mContacts := new Contact[MAX_SLOT](_ => Contact(false, 0));
      mTrackingId, mEnabledSlots := 0, 0;
      pipe := [];
      new;
      assert mContacts[..] == Idle().contacts;
    }

    method SendEvent(e: InputEvent)
      requires Valid()
      modifies this`pipe
      ensures View() == old(View()).(events := old(pipe) + [e])
    {
      pipe := pipe + [e];
    }

    method SendDown(slot: int, x: int, y: int, pressure: int) returns (ok: bool)
      requires Valid()
      modifies this, mContacts
      ensures Valid()
      ensures ok == InRange(slot)
      ensures View() == AfterDown(old(View()), slot, x, y, pressure)
    {
      hide AfterReset, Pressed;
      if !InRange(slot) {
        return false;
      }
      if mContacts[slot].enabled || mEnabledSlots >= MAX_SLOT {
        SendReset();
      }
      Press(slot, x, y, pressure);
      return true;
    }

    method Press(slot: int, x: int, y: int, pressure: int)
      requires Valid() && InRange(slot)
      modifies this, mContacts
      ensures Valid()
      ensures View() == Pressed(old(View()), slot, x, y, pressure)
    {
      hide Geometry;
      ghost var mid := View();
      mContacts[slot] := Contact(true, mTrackingId);
      mTrackingId := mTrackingId + 1;
      mEnabledSlots := mEnabledSlots + 1;

      SendEvent(MtSlot(slot));
      SendEvent(MtTrackingId(mContacts[slot].trackingId));
      if mEnabledSlots == 1 {
        SendEvent(BtnTouch(1));
      }
      SendGeometry(x, y, pressure);
      assert mContacts[..] == mid.contacts[slot := Contact(true, mid.trackingId)];
    }

    /** The five events that SendDown and SendMove both end with. */
    method SendGeometry(x: int, y: int, pressure: int)
      requires Valid()
      modifies this`pipe
      ensures pipe == old(pipe) + Geometry(x, y, pressure)
    {
      SendEvent(MtTouchMajor(4));
      SendEvent(MtWidthMajor(6));
      SendEvent(MtPressure(pressure));
      SendEvent(MtPositionX(x));
      SendEvent(MtPositionY(y));
    }

    method SendUp(slot: int) returns (ok: bool)
      requires Valid()
      modifies this, mContacts
      ensures Valid()
      ensures ok == (old(mEnabledSlots) != 0 && InRange(slot) && old(mContacts[..])[slot].enabled)
      ensures View() == AfterUp(old(View()), slot)
    {
      if mEnabledSlots == 0 || !InRange(slot) || !mContacts[slot].enabled {
        return false;
      }
      mContacts[slot] := mContacts[slot].(enabled := false);
      mEnabledSlots := mEnabledSlots - 1;

      SendEvent(MtSlot(slot));
      SendEvent(MtTrackingId(-1));
      if mEnabledSlots == 0 {
        SendEvent(BtnTouch(0));
      }
      return true;
    }

    method SendMove(slot: int, x: int, y: int, pressure: int) returns (ok: bool)
      requires Valid()
      modifies this`pipe
      ensures ok == (InRange(slot) && mContacts[slot].enabled)
      ensures View() == AfterMove(old(View()), slot, x, y, pressure)
    {
      if !InRange(slot) || !mContacts[slot].enabled {
        return false;
      }
      SendEvent(MtSlot(slot));
      SendGeometry(x, y, pressure);
      return true;
    }

    method SendCommit()
      requires Valid()
      modifies this`pipe
      ensures View() == AfterCommit(old(View()))
    {
      SendEvent(SynReport);
    }

    method SendReset()
      requires Valid()
      modifies this`pipe, mContacts
      ensures Valid()
      ensures View() == AfterReset(old(View()))
    {
      var report := false;
      for slot := 0 to MAX_SLOT
        invariant unchanged(this)
        invariant forall i :: slot <= i < MAX_SLOT ==> mContacts[i] == old(mContacts[i])
        invariant forall i :: 0 <= i < slot ==> mContacts[i] == old(mContacts[i]).(enabled := false)
        invariant report <==> exists i :: 0 <= i < slot && old(mContacts[i]).enabled
      {
        if mContacts[slot].enabled {
          mContacts[slot] := mContacts[slot].(enabled := false);
          report := true;
        }
      }
      ghost var was := old(mContacts[..]);
      if report {
        assert was == old(View()).contacts && AnyEnabled(was);
        assert mContacts[..] == Disabled(was);
        SendEvent(SynReport);
      } else {
        assert !AnyEnabled(was);
        assert mContacts[..] == was;
      }
    }
  }
}
