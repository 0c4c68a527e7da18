/**
 Recording a replay: what the emulator sent is read off the socket by a second receiver, logged and replayed.
 From the first file to the units of the second replay, only descriptor numbers change.
 */
module ReplayAgain {
  import opened Wrappers
  import opened Sequences
  import opened DisplayProtocol
  import opened LogDecode
  import opened LogRoundTrip
  import opened LogEvents
  import opened LogDocuments
  import opened LogFile
  import opened DisplayReceiver
  import opened DisplayEmulator
  import opened Replay
  import opened ReplayFidelity
  import TwoEnded

  // ----- one message, sent by the emulator and received -----

  /** A message as a receiver reads it from the emulator; the kernel numbers the descriptors anew. */
  function Again(a: Arrival, node: u32, d: TwoEnded.Delivery): Arrival
    requires a.ev.kind == CREATE_BUFFER ==> a.handle.Some? && FdsAccepted(a.handle.value) && a.fds.Some?
  {
    var create := a.ev.kind == CREATE_BUFFER;
    TwoEnded.Empty(a.ev.(renderNode := node), d)
    .(info := if a.ev.kind == DISPINFO_REQ then None else a.info,
      handle := if create then Some(Kept(a.handle.value, a.fds.value)) else None,
      fds := if create then Some(d.fds) else None)
  }

  /** Keeping a kept handle puts the new descriptors in place of the old and changes nothing else. */
  lemma KeptTwice(h: Gralloc, f: Fds, g: Fds)
    requires FdsAccepted(h)
    ensures FdsAccepted(Kept(h, f)) && Kept(Kept(h, f), g) == Kept(h, g)
    ensures Kept(h, g) == Kept(h, f).(planes := Kept(h, f).planes.(fds := Kept(h, g).planes.fds))
  {
    var n := h.base.numFds;
    assert g[..n] + (f[..n] + h.planes.fds[n..])[n..] == g[..n] + h.planes.fds[n..];
  }

  /** What the emulator sends for a faithful message, with anything behind it, is read as this message. */
  lemma ArrivesAgain(cfg: Config, live: set<u64>, a: Arrival, node: u32, fd: i32, more: seq<Unit>,
      d: TwoEnded.Delivery)
    requires Delivered(a) && FaithfulMessage(cfg, live, a)
    ensures TwoEnded.Take(Canonical(node, a, fd) + more, d) == TwoEnded.Taken(Again(a, node, d), more)
  {
    hide Kept, SmallGralloc, Usable, Accepts;
    var units, header := Canonical(node, a, fd), Unit.Header(a.ev.(renderNode := node));
    if a.ev.kind == CREATE_BUFFER {
      KeptTwice(a.handle.value, a.fds.value, d.fds);
      assert units == [header, Info(a.info.value), Handle(Kept(a.handle.value, a.fds.value)), Descriptors([fd])];
    } else if a.ev.kind == DISPINFO_REQ {
      assert units == [header];
    } else {
      TwoEnded.RestOfHeader(a.ev, node);
      TwoEnded.ControlsAgree(a.ev, node);
      hide Rest, HasControl, WithControl;
      assert units == [header, Info(a.info.value)];
    }
    assert TwoEnded.Take(units, d) == TwoEnded.Taken(Again(a, node, d), []);
    TwoEnded.TakeMore(units, more, d);
    assert [] + more == more;
  }

  // ----- units that differ in descriptor numbers only -----

  predicate SameButFds(u: Unit, v: Unit) {
    match u
    case Handle(h) => v.Handle? && v.handle == h.(planes := h.planes.(fds := v.handle.planes.fds))
    case Descriptors(fds) => v.Descriptors? && |fds| == |v.fds|
    case _ => u == v
  }

  ghost predicate AllSameButFds(s: seq<Unit>, t: seq<Unit>) {
    |s| == |t| && forall i :: 0 <= i < |s| ==> SameButFds(s[i], t[i])
  }

  lemma SameConcat(s: seq<Unit>, t: seq<Unit>, u: seq<Unit>, v: seq<Unit>)
    requires AllSameButFds(s, t) && AllSameButFds(u, v)
    ensures AllSameButFds(s + u, t + v)
  {
    hide SameButFds;
  }

  /** A faithful message comes back faithful, and is sent on with other descriptor numbers only. */
  lemma AgainFaithful(cfg: Config, cfg2: Config, live: set<u64>, a: Arrival, node: u32, d: TwoEnded.Delivery,
      fd: i32, fd2: i32)
    requires Delivered(a) && FaithfulMessage(cfg, live, a) && node < MAX_I32 && InOrder(d)
    requires a.ev.kind == DISPINFO_REQ ==> Accepts(cfg2, a.ev.(renderNode := node))
    ensures var b := Again(a, node, d);
            && Delivered(b) && FaithfulMessage(cfg2, live, b) && NextKeys(live, b) == NextKeys(live, a)
            && AllSameButFds(Canonical(node, a, fd), Canonical(node, b, fd2))
  {
    TwoEnded.RestOfHeader(a.ev, node);
    TwoEnded.ControlsAgree(a.ev, node);
    hide Kept, Accepts, Rest;
    if a.ev.kind == CREATE_BUFFER {
      KeptTwice(a.handle.value, a.fds.value, d.fds);
    }
  }

  /** The reply goes out and the clock is in range. */
  predicate InOrder(d: TwoEnded.Delivery) {
    d.sent && d.now < MAX_I64 && d.ackNow < MAX_I64
  }

  // ----- a whole queue -----

  /** Every message read off the queue in turn; None if it does not read whole. */
  function TakeAll(q: seq<Unit>, i: nat, delivery: nat -> TwoEnded.Delivery): Option<seq<Arrival>>
    decreases |q|
  {
    if q == [] then Some([])
    else
      var t := TwoEnded.Take(q, delivery(i));
      if !t.Taken? then None
      else
        TwoEnded.TakeShrinks(q, delivery(i));
        var rest := TakeAll(t.rest, i + 1, delivery);
        if rest.None? then None else Some([t.a] + rest.value)
  }

  lemma {:induction false} TakeAllMore(q: seq<Unit>, more: seq<Unit>, i: nat, delivery: nat -> TwoEnded.Delivery)
    requires TakeAll(q, i, delivery).Some?
    ensures var x := TakeAll(q, i, delivery).value;
            var y := TakeAll(more, i + |x|, delivery);
            TakeAll(q + more, i, delivery) == if y.None? then None else Some(x + y.value)
    decreases |q|
  {
    hide TwoEnded.Take;
    if q == [] {
      var y := TakeAll(more, i, delivery);
      assert q + more == more && (y.Some? ==> [] + y.value == y.value);
    } else {
      var t := TwoEnded.Take(q, delivery(i));
      TwoEnded.TakeShrinks(q, delivery(i));
      TwoEnded.TakeMore(q, more, delivery(i));
      TakeAllMore(t.rest, more, i + 1, delivery);
      var x := TakeAll(t.rest, i + 1, delivery).value;
      var y := TakeAll(more, i + 1 + |x|, delivery);
      if y.Some? {
        Assoc([t.a], x, y.value);
      }
    }
  }

  lemma OneMoreTaken(q: seq<Unit>, x: seq<Arrival>, units: seq<Unit>, delivery: nat -> TwoEnded.Delivery, a: Arrival)
    requires TakeAll(q, 0, delivery) == Some(x) && TwoEnded.Take(units, delivery(|x|)) == TwoEnded.Taken(a, [])
    ensures TakeAll(q + units, 0, delivery) == Some(x + [a])
  {
    TwoEnded.EmptyBlocks(units, delivery(|x|));
    hide TwoEnded.Take;
    assert [a] + [] == [a];
    TakeAllMore(q, units, 0, delivery);
  }

  ghost function AllAgain(cfg: Config, run: seq<Arrival>, node: u32, delivery: nat -> TwoEnded.Delivery): seq<Arrival>
    requires AllDelivered(run) && Faithful(cfg, run)
  {
    if run == [] then []
    else
      var front := run[..|run| - 1];
      AllAgain(cfg, front, node, delivery) + [Again(run[|run| - 1], node, delivery(|front|))]
  }

  /** All that a faithful run makes the emulator send is read, message by message, as the run come again. */
  lemma {:induction false} QueueArrivesAgain(cfg: Config, run: seq<Arrival>, node: u32, outcome: nat -> Outcome,
      delivery: nat -> TwoEnded.Delivery)
    requires AllDelivered(run) && Faithful(cfg, run) && NothingFails(outcome)
    ensures TakeAll(CanonicalAll(cfg, node, run, outcome), 0, delivery) == Some(AllAgain(cfg, run, node, delivery))
    ensures |AllAgain(cfg, run, node, delivery)| == |run|
  {
    if run == [] {
    } else {
      hide AllDelivered, Delivered, FaithfulMessage, Canonical, Again, TakeAll, TwoEnded.Take, NothingFails;
      var front, a := run[..|run| - 1], run[|run| - 1];
      DeliveredFront(run);
      QueueArrivesAgain(cfg, front, node, outcome, delivery);
      var fd := outcome(DocCount(front)).alloc.value;
      var units, d := Canonical(node, a, fd), delivery(|front|);
      ArrivesAgain(cfg, LiveKeys(front), a, node, fd, [], d);
      assert units + [] == units;
      OneMoreTaken(CanonicalAll(cfg, node, front, outcome), AllAgain(cfg, front, node, delivery), units, delivery,
                   Again(a, node, d));
    }
  }

  // ----- the second recording -----

  /** The second recorder accepts the emulator's render node. */
  predicate AcceptsAgain(cfg: Config, run: seq<Arrival>, node: u32) {
    forall i :: 0 <= i < |run| && run[i].ev.kind == DISPINFO_REQ ==> Accepts(cfg, run[i].ev.(renderNode := node))
  }

  ghost predicate AllInOrder(delivery: nat -> TwoEnded.Delivery) {
    forall i: nat :: InOrder(delivery(i))
  }

  lemma {:induction false} AllAgainFaithful(cfg: Config, cfg2: Config, run: seq<Arrival>, node: u32,
      outcome: nat -> Outcome, outcome2: nat -> Outcome, delivery: nat -> TwoEnded.Delivery)
    requires AllDelivered(run) && Faithful(cfg, run) && NothingFails(outcome) && NothingFails(outcome2)
    requires node < MAX_I32 && AcceptsAgain(cfg2, run, node) && AllInOrder(delivery)
    ensures var again := AllAgain(cfg, run, node, delivery);
            && AllDelivered(again) && Faithful(cfg2, again) && LiveKeys(again) == LiveKeys(run)
            && AllSameButFds(CanonicalAll(cfg, node, run, outcome), CanonicalAll(cfg2, node, again, outcome2))
  {
    if run == [] {
    } else {
      var front, a := run[..|run| - 1], run[|run| - 1];
      DeliveredFront(run);
      AllAgainFaithful(cfg, cfg2, front, node, outcome, outcome2, delivery);
      var again, b := AllAgain(cfg, front, node, delivery), Again(a, node, delivery(|front|));
      var fd, fd2 := outcome(DocCount(front)).alloc.value, outcome2(DocCount(again)).alloc.value;
      AgainFaithful(cfg, cfg2, LiveKeys(front), a, node, delivery(|front|), fd, fd2);
      LastMessage(cfg2, again, b, node, outcome2);
      SameConcat(CanonicalAll(cfg, node, front, outcome), CanonicalAll(cfg2, node, again, outcome2),
                 Canonical(node, a, fd), Canonical(node, b, fd2));
      hide AllDelivered, Delivered, FaithfulMessage, Canonical, Again, NextKeys, AllSameButFds;
    }
  }

  lemma LastMessage(cfg: Config, run: seq<Arrival>, a: Arrival, node: u32, outcome: nat -> Outcome)
    requires AllDelivered(run) && Delivered(a) && NothingFails(outcome)
    requires Faithful(cfg, run) && FaithfulMessage(cfg, LiveKeys(run), a)
    ensures var all := run + [a];
            && AllDelivered(all) && Faithful(cfg, all) && LiveKeys(all) == NextKeys(LiveKeys(run), a)
            && CanonicalAll(cfg, node, all, outcome)
            == CanonicalAll(cfg, node, run, outcome) + Canonical(node, a, outcome(DocCount(run)).alloc.value)
  {
    hide FaithfulMessage, Delivered, Canonical, NextKeys, NothingFails;
    DeliveredMore(run, a);
    assert (run + [a])[..|run|] == run;
  }

  lemma DeliveredMore(run: seq<Arrival>, a: Arrival)
    requires AllDelivered(run) && Delivered(a)
    ensures AllDelivered(run + [a])
  {
  }

  /** A run recorded to a file, the file loaded and replayed; None if the file does not load. */
  ghost function Replayed(cfg: Config, run: seq<Arrival>, node: u32, outcome: nat -> Outcome): Option<Played> {
    match LoadAll(Documents(FileRows(AfterRun(cfg, Fresh(), run).docs)))
    case None => None
    case Some(docs) => Some(Play(Emulator(map[], [], node), DecodeAll(docs), 0, outcome))
  }

  /**
   Replaying the recording of a replay.  A faithful run is recorded and replayed; what the emulator sends reads
   whole, as as many messages; recorded by a second receiver to a second file and replayed from it, they make the
   emulator send the same units but for descriptor numbers, and hold the same handles at the end.
   */
  lemma ReplayOfReplay(cfg: Config, cfg2: Config, run: seq<Arrival>, node: u32, outcome: nat -> Outcome,
      outcome2: nat -> Outcome, delivery: nat -> TwoEnded.Delivery)
    requires AllDelivered(run) && Faithful(cfg, run) && 2 * |run| < MAX_I32
    requires NothingFails(outcome) && NothingFails(outcome2) && AllInOrder(delivery)
    requires node < MAX_I32 && AcceptsAgain(cfg2, run, node)
    requires cfg.width < MAX_I32 && cfg.height < MAX_I32 && cfg2.width < MAX_I32 && cfg2.height < MAX_I32
    ensures var r := Replayed(cfg, run, node, outcome);
            && r.Some? && r.value.status == EndOfFile
            && var again := TakeAll(r.value.emu.sent, 0, delivery);
               && again.Some? && |again.value| == |run|
               && var r2 := Replayed(cfg2, again.value, node, outcome2);
                  && r2.Some? && r2.value.status == EndOfFile
                  && AllSameButFds(r.value.emu.sent, r2.value.emu.sent)
                  && r2.value.emu.boList.Keys == r.value.emu.boList.Keys
  {
    FaithfulRunReplayed(cfg, run, node, outcome);
    QueueArrivesAgain(cfg, run, node, outcome, delivery);
    AllAgainFaithful(cfg, cfg2, run, node, outcome, outcome2, delivery);
    FaithfulRunReplayed(cfg2, AllAgain(cfg, run, node, delivery), node, outcome2);
    hide AllDelivered, NothingFails, Play, Documents, DecodeAll, CanonicalAll, LiveKeys, Faithful, TakeAll, AllAgain,
        AllSameButFds, AllInOrder, AcceptsAgain;
  }
}
