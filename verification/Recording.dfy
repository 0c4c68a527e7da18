/**
 What a log is recorded from: whole sessions of the worker, and between its messages the documents of setMode and
 setVideoAlpha.  The handles go with a stop; the log goes on.
 */
module Recording {
  import opened Wrappers
  import opened DisplayProtocol
  import opened LogStructs
  import opened ProfileLog
  import opened DisplayReceiver
  import FrameLifecycle

  type Session = FrameLifecycle.Session

  /** Mode and Alpha are calls whose message went out; one that fails logs nothing. */
  datatype Happening =
    | Worker(input: FrameLifecycle.Input)
    | Mode(now: nat, width: u32, height: u32)
    | Alpha(now: nat, enable: u32)

  function ModeBody(width: u32, height: u32): Body {
    InfoBody(DisplayEvent(SETUP_RESOLUTION, SIZEOF_EVENT + SIZEOF_INFO, 0, 0),
             DisplayInfo(1, width, height, 0, 0, "0.000000", "0.000000", "0.000000", 0, 0, 0))
  }

  function AlphaReply(enable: u32): Body {
    AlphaBody(DisplayEvent(SET_VIDEO_ALPHA_REQ, SIZEOF_EVENT + SIZEOF_ALPHA, 0, 0), VideoAlpha(enable, [0, 0, 0]))
  }

  function Client(s: State, kind: LogEvent, now: nat, body: Body): State {
    Log(s.(counts := Counted(s.counts, kind)), kind, now, body)
  }

  function After(cfg: Config, x: Session, h: Happening): Session {
    match h
    case Worker(input) => FrameLifecycle.Step(cfg, x, input)
    case Mode(now, width, height) =>
      if x.started then x.(s := Client(x.s, EVENT_CHANGE_RESOLUTION, now, ModeBody(width, height))) else x
    case Alpha(now, enable) =>
      if x.started then x.(s := Client(x.s, EVENT_SET_ALPHA, now, AlphaReply(enable))) else x
  }

  function Recorded(cfg: Config, hs: seq<Happening>): Session {
    if hs == [] then FrameLifecycle.Opening() else After(cfg, Recorded(cfg, hs[..|hs| - 1]), hs[|hs| - 1])
  }

  /** The happenings that can leave documents. */
  function Entries(hs: seq<Happening>): nat {
    if hs == [] then 0
    else Entries(hs[..|hs| - 1]) + if hs[|hs| - 1].Worker? && !hs[|hs| - 1].input.Message? then 0 else 1
  }

  /** A started worker and its messages. */
  function Started(run: seq<Arrival>): seq<Happening> {
    if run == [] then [Worker(FrameLifecycle.Start)]
    else Started(run[..|run| - 1]) + [Worker(FrameLifecycle.Message(run[|run| - 1]))]
  }

  lemma StartedMore(run: seq<Arrival>)
    requires run != []
    ensures var hs := Started(run);
            && hs != [] && hs[..|hs| - 1] == Started(run[..|run| - 1])
            && hs[|hs| - 1] == Worker(FrameLifecycle.Message(run[|run| - 1]))
  {
  }

  /** Every info request of the run is accepted. */
  predicate AllAccepted(cfg: Config, run: seq<Arrival>) {
    forall i :: 0 <= i < |run| && run[i].ev.kind == DISPINFO_REQ ==> Accepts(cfg, run[i].ev)
  }

  /** The worker then lives on, and the log is that of the messages. */
  lemma {:induction false} StartedRecords(cfg: Config, run: seq<Arrival>)
    requires AllAccepted(cfg, run)
    ensures var x := Recorded(cfg, Started(run));
            x.working && x.started && x.s == AfterRun(cfg, FrameLifecycle.Opening().s, run)
    ensures Entries(Started(run)) == |run|
  {
    if run == [] {
      var hs := Started(run);
      assert hs[..0] == [] && Recorded(cfg, []) == FrameLifecycle.Opening();
      assert Entries(hs[..0]) == 0;
    } else {
      hide AfterMessage, Accepts;
      StartedRecords(cfg, run[..|run| - 1]);
      StartedMore(run);
      hide Started;
    }
  }
}
