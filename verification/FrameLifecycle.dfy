/**
 The frames over whole sessions of start, messages, lost connections and stop: every local handle is created,
 shown any number of times, removed and freed once, in this order; and exactly which ones are never removed.
 */
module FrameLifecycle {
  import opened Wrappers
  import opened Sequences
  import opened DisplayProtocol
  import opened LogStructs
  import opened DisplayReceiver

  /** Handles survive a lost connection; the worker ends on a failed read or a refused DISPINFO_REQ. */
  datatype Input = Start | Message(a: Arrival) | Reconnect | WorkerEnds | Stop

  datatype Session = Session(s: State, started: bool, working: bool)

  function Opening(): Session {
    Session(State(map[], 0, [], [], Tally(0, 0, 0, 0, 0, 0, 0)), false, false)
  }

  function Step(cfg: Config, x: Session, i: Input): Session {
    match i
    case Start => if x.started then x else x.(started := true, working := true)
    case Message(a) =>
      if !x.working then x
      else x.(s := AfterMessage(cfg, x.s, a), working := a.ev.kind == DISPINFO_REQ ==> Accepts(cfg, a.ev))
    case Reconnect => x
    case WorkerEnds => x.(working := false)
    case Stop => if !x.started then x else Session(AfterStop(x.s), false, false)
  }

  function Run(cfg: Config, inputs: seq<Input>): Session {
    if inputs == [] then Opening() else Step(cfg, Run(cfg, inputs[..|inputs| - 1]), inputs[|inputs| - 1])
  }

  // ----- the life of one local handle -----

  datatype Phase = Unborn | Live | Removing | Dead | Wrong

  function Next(p: Phase, c: Call, id: nat): Phase {
    if c.id != id then p
    else
      match c
      case Created(_) => if p == Unborn then Live else Wrong
      case Shown(_, _) => if p == Live then Live else Wrong
      case Removed(_) => if p == Live then Removing else Wrong
      case Freed(_) => if p == Removing then Dead else Wrong
  }

  /** Where the calls so far have brought a local handle; Wrong if they ever broke the order. */
  function Life(calls: seq<Call>, id: nat): Phase {
    if calls == [] then Unborn else Next(Life(calls[..|calls| - 1], id), calls[|calls| - 1], id)
  }

  lemma LifeNext(calls: seq<Call>, c: Call, id: nat)
    ensures Life(calls + [c], id) == Next(Life(calls, id), c, id)
  {
    assert (calls + [c])[..|calls|] == calls;
  }

  lemma LifeTwice(calls: seq<Call>, c: Call, d: Call, id: nat)
    ensures Life(calls + [c, d], id) == Next(Next(Life(calls, id), c, id), d, id)
  {
    hide Next;
    LifeNext(calls, c, id);
    LifeNext(calls + [c], d, id);
    assert calls + [c] + [d] == calls + [c, d];
  }

  ghost predicate Holds(handles: map<u64, Local>, id: nat) {
    exists k :: k in handles && handles[k].id == id
  }

  /** No two keys share a local handle. */
  ghost predicate Distinct(handles: map<u64, Local>) {
    forall j, k :: j in handles && k in handles && handles[j].id == handles[k].id ==> j == k
  }

  /** A message that creates a buffer under a key that is already taken. */
  predicate Clashes(x: Session, i: Input) {
    && i.Message? && x.working && i.a.ev.kind == CREATE_BUFFER && i.a.ev.size == CREATE_SIZE
    && CreateCompletes(i.a) && i.a.info.value in x.s.handles
  }

  /** The local handles of all clashing creates. */
  function Lost(cfg: Config, inputs: seq<Input>): set<nat> {
    if inputs == [] then {}
    else
      var x, i := Run(cfg, inputs[..|inputs| - 1]), inputs[|inputs| - 1];
      Lost(cfg, inputs[..|inputs| - 1]) + if Clashes(x, i) then {x.s.nextId} else {}
  }

  /** Not yet made, live under a key or lost, or dead. */
  ghost predicate Placed(s: State, lost: set<nat>, id: nat) {
    Life(s.calls, id) == if id >= s.nextId then Unborn else if Holds(s.handles, id) || id in lost then Live else Dead
  }

  /** Every handle made so far is live or dead; the live ones are those held under a key and the lost ones. */
  ghost predicate Sound(s: State, lost: set<nat>) {
    && Distinct(s.handles)
    && (forall k :: k in s.handles ==> s.handles[k].id < s.nextId && s.handles[k].id !in lost)
    && (forall id :: id in lost ==> id < s.nextId)
    && (forall id: nat :: Placed(s, lost, id))
  }

  lemma HoldsAdded(handles: map<u64, Local>, key: u64, local: Local, id: nat)
    requires key !in handles
    ensures Holds(handles[key := local], id) <==> Holds(handles, id) || local.id == id
  {
    var h := handles[key := local];
    if k :| k in handles && handles[k].id == id {
      assert k in h && h[k].id == id;
    }
    assert key in h && h[key] == local;
  }

  lemma HoldsTaken(handles: map<u64, Local>, key: u64, id: nat)
    requires key in handles && Distinct(handles)
    ensures Distinct(handles - {key})
    ensures Holds(handles - {key}, id) <==> Holds(handles, id) && handles[key].id != id
  {
    var h := handles - {key};
    if k :| k in handles && handles[k].id == id && k != key {
      assert k in h && h[k].id == id;
    }
    if k :| k in h && h[k].id == id {
      assert k in handles && handles[k].id == id;
    }
  }

  lemma HeldIsBorn(s: State, lost: set<nat>, id: nat)
    requires Sound(s, lost) && (Holds(s.handles, id) || id in lost)
    ensures id < s.nextId
  {
  }

  lemma SoundCreate(s: State, s': State, lost: set<nat>, key: u64, handle: Gralloc)
    requires Sound(s, lost)
    requires s'.nextId == s.nextId + 1 && s'.calls == s.calls + [Created(s.nextId)]
    requires s'.handles == if key in s.handles then s.handles else s.handles[key := Local(s.nextId, handle)]
    ensures Sound(s', if key in s.handles then lost + {s.nextId} else lost)
  {
    var lost' := if key in s.handles then lost + {s.nextId} else lost;
    forall id: nat
      ensures Placed(s', lost', id)
    {
      assert Placed(s, lost, id);
      LifeNext(s.calls, Created(s.nextId), id);
      if Holds(s.handles, s.nextId) {
        HeldIsBorn(s, lost, s.nextId);
      }
      if key !in s.handles {
        HoldsAdded(s.handles, key, Local(s.nextId, handle), id);
      }
      hide Life, Holds;
    }
  }

  lemma SoundRemove(s: State, s': State, lost: set<nat>, key: u64)
    requires Sound(s, lost) && key in s.handles
    requires var id := s.handles[key].id;
             s'.nextId == s.nextId && s'.calls == s.calls + [Removed(id), Freed(id)] && s'.handles == s.handles - {key}
    ensures Sound(s', lost)
  {
    var gone := s.handles[key].id;
    assert Holds(s.handles, gone);
    forall id: nat
      ensures Placed(s', lost, id)
    {
      assert Placed(s, lost, id);
      LifeTwice(s.calls, Removed(gone), Freed(gone), id);
      HoldsTaken(s.handles, key, id);
      hide Life, Holds;
    }
  }

  lemma SoundShow(s: State, s': State, lost: set<nat>, key: u64, ctrl: Option<Control>)
    requires Sound(s, lost) && key in s.handles
    requires s'.nextId == s.nextId && s'.handles == s.handles && s'.calls == s.calls + [Shown(s.handles[key].id, ctrl)]
    ensures Sound(s', lost)
  {
    assert Holds(s.handles, s.handles[key].id);
    forall id: nat
      ensures Placed(s', lost, id)
    {
      assert Placed(s, lost, id);
      LifeNext(s.calls, Shown(s.handles[key].id, ctrl), id);
      hide Life, Holds;
    }
  }

  /** Releasing everything ends the life of exactly the handles held. */
  lemma {:induction false} LifeRelease(calls: seq<Call>, handles: map<u64, Local>, id: nat)
    requires Distinct(handles) && (Holds(handles, id) ==> Life(calls, id) == Live)
    ensures Life(calls + ReleaseCalls(handles), id) == if Holds(handles, id) then Dead else Life(calls, id)
    decreases |handles.Keys|
  {
    if handles.Keys == {} {
      assert calls + ReleaseCalls(handles) == calls;
    } else {
      var k := Least(handles.Keys);
      var gone := handles[k].id;
      assert Holds(handles, gone);
      hide Life, Distinct, IsLeast;
      LifeTwice(calls, Removed(gone), Freed(gone), id);
      HoldsTaken(handles, k, id);
      assert (handles - {k}).Keys == handles.Keys - {k};
      LifeRelease(calls + [Removed(gone), Freed(gone)], handles - {k}, id);
      Assoc(calls, [Removed(gone), Freed(gone)], ReleaseCalls(handles - {k}));
    }
  }

  lemma SoundStop(s: State, lost: set<nat>)
    requires Sound(s, lost)
    ensures Sound(AfterStop(s), lost)
  {
    var s' := AfterStop(s);
    forall id: nat
      ensures Placed(s', lost, id)
    {
      assert Placed(s, lost, id);
      if Holds(s.handles, id) {
        HeldIsBorn(s, lost, id);
        assert id !in lost;
      }
      LifeRelease(s.calls, s.handles, id);
      assert !Holds(s'.handles, id);
      hide Life, Holds;
    }
  }

  /** The parts of the state that matter here are the same. */
  predicate SameFrames(s: State, s': State) {
    s'.handles == s.handles && s'.nextId == s.nextId && s'.calls == s.calls
  }

  lemma SoundMessage(cfg: Config, x: Session, a: Arrival, lost: set<nat>)
    requires Sound(x.s, lost) && x.working
    ensures Sound(AfterMessage(cfg, x.s, a), lost + if Clashes(x, Message(a)) then {x.s.nextId} else {})
  {
    var s, s' := x.s, AfterMessage(cfg, x.s, a);
    hide Sound, Kept, Accepts, CreateCompletes;
    assert lost + {} == lost;
    if a.ev.kind == CREATE_BUFFER && a.ev.size == CREATE_SIZE && CreateCompletes(a) {
      assert a.info.Some? && a.handle.Some? && FdsAccepted(a.handle.value) && a.fds.Some? by {
        Completes(a);
      }
      SoundCreate(s, s', lost, a.info.value, Kept(a.handle.value, a.fds.value));
    } else if a.ev.kind == REMOVE_BUFFER && a.info.Some? && a.info.value in s.handles {
      SoundRemove(s, s', lost, a.info.value);
    } else if a.ev.kind == DISPLAY_REQ && |s'.calls| > |s.calls| {
      SoundShow(s, s', lost, a.info.value, if WithControl(a.ev) then a.ctrl else None);
    } else {
      SoundSame(s, s', lost);
    }
  }

  lemma Completes(a: Arrival)
    requires CreateCompletes(a)
    ensures a.info.Some? && a.handle.Some? && FdsAccepted(a.handle.value) && a.fds.Some?
  {
  }

  lemma SoundSame(s: State, s': State, lost: set<nat>)
    requires Sound(s, lost) && SameFrames(s, s')
    ensures Sound(s', lost)
  {
    hide Life, Holds;
    forall id: nat
      ensures Placed(s', lost, id)
    {
      assert Placed(s, lost, id);
    }
  }

  lemma LifeOf(s: State, lost: set<nat>, id: nat)
    requires Sound(s, lost)
    ensures Life(s.calls, id)
         == if id >= s.nextId then Unborn else if Holds(s.handles, id) || id in lost then Live else Dead
  {
    assert Placed(s, lost, id);
  }

  /** In every session, after any inputs at all, who is live is known. */
  lemma {:induction false} SessionsAreSound(cfg: Config, inputs: seq<Input>)
    ensures Sound(Run(cfg, inputs).s, Lost(cfg, inputs))
  {
    if inputs == [] {
      forall id: nat
        ensures Placed(Opening().s, {}, id)
      {
      }
    } else {
      var front, i := inputs[..|inputs| - 1], inputs[|inputs| - 1];
      SessionsAreSound(cfg, front);
      hide Sound, Clashes, Step;
      SoundStep(cfg, Run(cfg, front), i, Lost(cfg, front));
    }
  }

  /**
   In every session, after any inputs, no local handle is shown or removed before it is created or after it is
   removed, and none is freed twice or without being removed.
   */
  lemma CallsInOrder(cfg: Config, inputs: seq<Input>, id: nat)
    ensures Life(Run(cfg, inputs).s.calls, id) in {Unborn, Live, Dead}
  {
    SessionsAreSound(cfg, inputs);
    LifeOf(Run(cfg, inputs).s, Lost(cfg, inputs), id);
    hide Life, Holds, Sound;
  }

  lemma SoundStep(cfg: Config, x: Session, i: Input, lost: set<nat>)
    requires Sound(x.s, lost)
    ensures Sound(Step(cfg, x, i).s, lost + if Clashes(x, i) then {x.s.nextId} else {})
  {
    hide Sound, AfterMessage, AfterStop, Clashes;
    NoClash(x, i);
    assert lost + {} == lost;
    match i {
      case Message(a) =>
        if x.working {
          SoundMessage(cfg, x, a, lost);
        }
      case Stop =>
        SoundStop(x.s, lost);
      case _ =>
    }
  }

  lemma NoClash(x: Session, i: Input)
    ensures Clashes(x, i) ==> i.Message? && x.working
  {
  }

  /** No create of the session found its key taken. */
  ghost predicate FreshCreates(cfg: Config, inputs: seq<Input>) {
    forall n :: 0 <= n < |inputs| ==> !Clashes(Run(cfg, inputs[..n]), inputs[n])
  }

  lemma {:induction false} LostIffClash(cfg: Config, inputs: seq<Input>)
    ensures Lost(cfg, inputs) == {} <==> FreshCreates(cfg, inputs)
  {
    if inputs == [] {
    } else {
      var k := |inputs| - 1;
      LostIffClash(cfg, inputs[..k]);
      FreshSoFar(cfg, inputs, k);
      hide FreshCreates, Run, Clashes;
    }
  }

  lemma FreshSoFar(cfg: Config, inputs: seq<Input>, k: nat)
    requires k + 1 == |inputs|
    ensures FreshCreates(cfg, inputs) <==> FreshCreates(cfg, inputs[..k]) && !Clashes(Run(cfg, inputs[..k]), inputs[k])
  {
    hide Run, Clashes;
    assert forall n :: 0 <= n < k ==> inputs[..k][..n] == inputs[..n] && inputs[..k][n] == inputs[n];
  }

  /**
   After stop, the handles created and never removed are exactly those of creates whose key was taken; so every
   create has its one remove by then if and only if no create of the session clashed.
   */
  lemma AllRemovedIffFresh(cfg: Config, inputs: seq<Input>)
    requires Run(cfg, inputs).started
    ensures var s := Run(cfg, inputs + [Stop]).s;
            && (forall id: nat :: id < s.nextId ==> Life(s.calls, id) == if id in Lost(cfg, inputs) then Live else Dead)
            && ((forall id: nat :: id < s.nextId ==> Life(s.calls, id) == Dead) <==> FreshCreates(cfg, inputs))
  {
    hide Sound, Life, FreshCreates;
    var all := inputs + [Stop];
    assert all[..|all| - 1] == inputs && all[|all| - 1] == Stop;
    SessionsAreSound(cfg, all);
    LostIffClash(cfg, inputs);
    StopLosesNone(cfg, inputs);
    var s, lost := Run(cfg, all).s, Lost(cfg, inputs);
    assert s.handles == map[];
    forall id: nat | id < s.nextId
      ensures Life(s.calls, id) == if id in lost then Live else Dead
    {
      LifeOf(s, lost, id);
    }
    if id :| id in lost {
      LostIsBorn(s, lost, id);
      assert Life(s.calls, id) == Live;
    }
  }

  lemma LostIsBorn(s: State, lost: set<nat>, id: nat)
    requires Sound(s, lost) && id in lost
    ensures id < s.nextId
  {
  }

  lemma StopLosesNone(cfg: Config, inputs: seq<Input>)
    ensures Lost(cfg, inputs + [Stop]) == Lost(cfg, inputs)
  {
    hide Run;
    var all := inputs + [Stop];
    assert all[..|all| - 1] == inputs;
  }
}
