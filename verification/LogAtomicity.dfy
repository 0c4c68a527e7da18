/**
 The worker and any number of client threads (setMode, setVideoAlpha) writing the log line by line.  Counting
 happens before the mutex is taken, everything else under it; locking succeeds.
 */
module LogAtomicity {
  import opened Wrappers
  import opened Sequences
  import opened DisplayProtocol
  import opened LogStructs
  import opened LogLines
  import opened ProfileLog
  import LogFile

  /** One event to log: a document, perhaps one for its reply; each has a kind, a time and a body. */
  datatype Job = Job(kind: LogEvent, now: nat, body: Body, reply: Option<LogEvent>, replyNow: nat, replyBody: Body)

  function Counter(c: Tally, which: nat): nat {
    match which
    case 0 => c.create
    case 1 => c.remove
    case 2 => c.display
    case 3 => c.resolution
    case 4 => c.dispInfo
    case 5 => c.dispPort
    case _ => c.alpha
  }

  /**
   A thread outside the logger, one that has counted its event and waits for the mutex, or the one that holds
   it: part of the job, lines of it written, the number and counts it has printed, and for each count the event
   the worker had counted but not begun to log at that moment.
   */
  datatype Thread =
    | Idle
    | Ready(job: Job)
    | Holding(job: Job, part: nat, line: nat, id: nat, seen: seq<nat>, ahead: seq<Option<LogEvent>>)

  /** A document that has been written to its end. */
  datatype Document = Document(writer: nat, job: Job, part: nat, id: nat, seen: seq<nat>, ahead: seq<Option<LogEvent>>)

  datatype System = System(threads: seq<Thread>, counts: Tally, reportId: nat, lock: Option<nat>,
                           file: seq<LogFile.Row>, docs: seq<Document>)

  function Parts(j: Job): nat {
    if j.reply.Some? then 2 else 1
  }

  function KindOf(j: Job, part: nat): LogEvent {
    if part == 0 || j.reply.None? then j.kind else j.reply.value
  }

  function TimeOf(j: Job, part: nat): nat {
    if part == 0 then j.now else j.replyNow
  }

  function BodyOf(j: Job, part: nat): Body {
    if part == 0 then j.body else j.replyBody
  }

  /** Lines of a document: what opens it counts as one, since no counter is read for it; the counts; the body. */
  function Length(j: Job, part: nat): nat {
    1 + COUNTERS + |BodyRows(BodyOf(j, part))|
  }

  /** The event thread 0 has counted and not begun to log. */
  function Pending(x: System): Option<LogEvent> {
    if |x.threads| > 0 && x.threads[0].Ready? then Some(x.threads[0].job.kind) else None
  }

  datatype Move = Begin(i: nat, job: Job) | Acquire(i: nat) | Write(i: nat) | Release(i: nat)

  function NextRows(x: System, h: Thread): seq<LogFile.Row>
    requires h.Holding?
  {
    if h.line == 0 then Head(x.reportId, KindOf(h.job, h.part), TimeOf(h.job, h.part))
    else if h.line <= COUNTERS then [CountRow(h.line - 1, Counter(x.counts, h.line - 1))]
    else
      var rows := BodyRows(BodyOf(h.job, h.part));
      if h.line - COUNTERS - 1 < |rows| then [rows[h.line - COUNTERS - 1]] else []
  }

  /** The thread after its next line, still in the same document. */
  function Advanced(x: System, h: Thread): Thread
    requires h.Holding?
  {
    if h.line == 0 then h.(line := 1, id := x.reportId)
    else if h.line <= COUNTERS then
      h.(line := h.line + 1, seen := h.seen + [Counter(x.counts, h.line - 1)], ahead := h.ahead + [Pending(x)])
    else h.(line := h.line + 1)
  }

  /** A line in the middle of a document. */
  function Continued(x: System, i: nat): System
    requires i < |x.threads| && x.threads[i].Holding?
  {
    var h := x.threads[i];
    System(x.threads[i := Advanced(x, h)], x.counts, x.reportId + (if h.line == COUNTERS then 1 else 0), x.lock,
           x.file + NextRows(x, h), x.docs)
  }

  /** The document a last line completes. */
  function Ended(x: System, i: nat): Document
    requires i < |x.threads| && x.threads[i].Holding?
  {
    var h, h' := x.threads[i], Advanced(x, x.threads[i]);
    Document(i, h.job, h.part, h'.id, h'.seen, h'.ahead)
  }

  /** The line just written was the last of its document. */
  function Finished(x: System, i: nat, d: Document): System
    requires i < |x.threads| && x.threads[i].Holding?
  {
    var h := x.threads[i];
    x.(threads := x.threads[i := Holding(h.job, h.part + 1, 0, 0, [], [])], docs := x.docs + [d])
  }

  predicate IsLast(h: Thread)
    requires h.Holding?
  {
    h.line + 1 == Length(h.job, h.part)
  }

  function AfterWrite(x: System, i: nat): System
    requires i < |x.threads| && x.threads[i].Holding?
  {
    var y := Continued(x, i);
    if IsLast(x.threads[i]) then Finished(y, i, Ended(x, i)) else y
  }

  function Began(x: System, i: nat, job: Job): System
    requires i < |x.threads|
  {
    x.(threads := x.threads[i := Ready(job)], counts := Counted(x.counts, job.kind))
  }

  function Acquired(x: System, i: nat): System
    requires i < |x.threads| && x.threads[i].Ready?
  {
    x.(threads := x.threads[i := Holding(x.threads[i].job, 0, 0, 0, [], [])], lock := Some(i))
  }

  function Released(x: System, i: nat): System
    requires i < |x.threads|
  {
    x.(threads := x.threads[i := Idle], lock := None)
  }

  function Step(x: System, m: Move): System {
    if m.i >= |x.threads| then x
    else
      var t := x.threads[m.i];
      match m
      case Begin(i, job) =>
        if !t.Idle? then x else Began(x, i, job)
      case Acquire(i) =>
        if !t.Ready? || x.lock.Some? then x
        else Acquired(x, i)
      case Write(i) =>
        if !t.Holding? || t.part >= Parts(t.job) then x else AfterWrite(x, i)
      case Release(i) =>
        if !t.Holding? || t.part < Parts(t.job) then x else Released(x, i)
  }

  function Start(n: nat): System {
    System(seq(n, _ => Idle), Tally(0, 0, 0, 0, 0, 0, 0), 0, None, [], [])
  }

  function Run(n: nat, moves: seq<Move>): System {
    if moves == [] then Start(n) else Step(Run(n, moves[..|moves| - 1]), moves[|moves| - 1])
  }

  // ----- what the file is -----

  /** The counts printed by then. */
  function CountsBy(line: nat): nat {
    if line == 0 then 0 else if line - 1 < COUNTERS then line - 1 else COUNTERS
  }

  function Upto<T>(s: seq<T>, n: nat): seq<T> {
    if n < |s| then s[..n] else s
  }

  /** The first `line` lines of a document. */
  function Lines(id: nat, j: Job, part: nat, seen: seq<nat>, line: nat): seq<LogFile.Row>
    requires |seen| == CountsBy(line)
  {
    if line == 0 then []
    else
      Head(id, KindOf(j, part), TimeOf(j, part)) + CountRows(seen)
      + Upto(BodyRows(BodyOf(j, part)), if line <= COUNTERS then 0 else line - 1 - COUNTERS)
  }

  predicate Complete(d: Document) {
    |d.seen| == COUNTERS && |d.ahead| == COUNTERS && d.part < Parts(d.job)
  }

  function WholeDocument(d: Document): seq<LogFile.Row>
    requires Complete(d)
  {
    Lines(d.id, d.job, d.part, d.seen, Length(d.job, d.part))
  }

  predicate AllComplete(docs: seq<Document>) {
    forall k :: 0 <= k < |docs| ==> Complete(docs[k])
  }

  function WholeFile(docs: seq<Document>): seq<LogFile.Row>
    requires AllComplete(docs)
  {
    if docs == [] then [] else WholeFile(docs[..|docs| - 1]) + WholeDocument(docs[|docs| - 1])
  }

  // ----- counting documents -----

  /** The event types whose documents only the worker writes, by counter. */
  function CountedKind(which: nat): LogEvent
    requires which < 3
  {
    if which == 0 then EVENT_CREATE_BUFFER else if which == 1 then EVENT_REMOVE_BUFFER else EVENT_DISPLAY_REQ
  }

  function Number(docs: seq<Document>, kind: LogEvent): nat {
    if docs == [] then 0
    else
      var d := docs[|docs| - 1];
      Number(docs[..|docs| - 1], kind) + if KindOf(d.job, d.part) == kind then 1 else 0
  }

  function One(b: bool): nat {
    if b then 1 else 0
  }

  // ----- the invariant -----

  ghost predicate Locked(x: System) {
    && (forall i :: 0 <= i < |x.threads| ==> (x.threads[i].Holding? <==> x.lock == Some(i)))
    && (x.lock.Some? ==> x.lock.value < |x.threads|)
  }

  /** How far the holder is in its document. */
  predicate InPlace(x: System, h: Thread)
    requires h.Holding?
  {
    var printed := CountsBy(h.line);
    && h.part <= Parts(h.job) && (h.part == Parts(h.job) ==> h.line == 0) && h.line < Length(h.job, h.part)
    && |h.seen| == printed && |h.ahead| == printed
    && (h.line > 0 ==> h.id == |x.docs|)
    && x.reportId == |x.docs| + One(h.line > COUNTERS)
  }

  /** The file is the whole documents, numbered in order, and the lines of the one being written. */
  ghost predicate Written(x: System)
    requires Locked(x)
  {
    && AllComplete(x.docs)
    && (forall k :: 0 <= k < |x.docs| ==> x.docs[k].id == k)
    && (x.lock.None? ==> x.reportId == |x.docs| && x.file == WholeFile(x.docs))
    && (x.lock.Some? ==>
          var h := x.threads[x.lock.value];
          InPlace(x, h) && x.file == WholeFile(x.docs) + Lines(h.id, h.job, h.part, h.seen, h.line))
  }

  /** A reply's document comes right after its request's. */
  ghost predicate Paired(x: System)
    requires Locked(x)
  {
    && (forall k :: 0 <= k < |x.docs| && x.docs[k].part == 1 ==>
         k > 0 && FirstOf(x.docs[k - 1], x.docs[k].writer, x.docs[k].job))
    && (x.lock.Some? && x.threads[x.lock.value].part == 1 ==>
          x.docs != [] && FirstOf(x.docs[|x.docs| - 1], x.lock.value, x.threads[x.lock.value].job))
  }

  predicate FirstOf(d: Document, writer: nat, job: Job) {
    d.part == 0 && d.writer == writer && d.job == job
  }

  predicate WorkerKind(kind: LogEvent) {
    kind == EVENT_CREATE_BUFFER || kind == EVENT_REMOVE_BUFFER || kind == EVENT_DISPLAY_REQ
  }

  /** Buffer events are the worker's, and replies are not buffer events. */
  predicate Allowed(i: nat, job: Job) {
    (WorkerKind(job.kind) ==> i == 0) && (job.reply.Some? ==> !WorkerKind(job.reply.value))
  }

  ghost predicate Jobs(x: System) {
    forall i :: 0 <= i < |x.threads| && !x.threads[i].Idle? ==> Allowed(i, x.threads[i].job)
  }

  /** The kind of the request being written. */
  function Current(x: System): Option<LogEvent>
    requires x.lock.Some? ==> x.lock.value < |x.threads| && x.threads[x.lock.value].Holding?
  {
    if x.lock.Some? && x.threads[x.lock.value].part == 0 then Some(x.threads[x.lock.value].job.kind) else None
  }

  ghost predicate CountsRight(x: System)
    requires Locked(x)
  {
    forall c: nat :: c < 3 ==> CountRight(x, c)
  }

  /** A counter is the documents of its kind, the one being written and the one the worker has counted. */
  ghost predicate CountRight(x: System, c: nat)
    requires Locked(x) && c < 3
  {
    Counter(x.counts, c) == Number(x.docs, CountedKind(c)) + One(Current(x) == Some(CountedKind(c)))
        + One(Pending(x) == Some(CountedKind(c)))
  }

  predicate NeverAhead(ahead: seq<Option<LogEvent>>) {
    forall j :: 0 <= j < |ahead| ==> ahead[j] == None
  }

  /** A printed count is the number of documents of its kind, this one included, and one if the worker was ahead. */
  predicate PrintsRight(docs: seq<Document>, k: nat)
    requires k < |docs| && Complete(docs[k])
  {
    && docs[k].seen[5] == 0 && (docs[k].writer == 0 ==> NeverAhead(docs[k].ahead))
    && forall c: nat :: c < 3 ==>
      docs[k].seen[c] == Number(docs[..k + 1], CountedKind(c)) + One(docs[k].ahead[c] == Some(CountedKind(c)))
  }

  /** The same for the counts of the document being written. */
  predicate PrintsSoFar(x: System, h: Thread)
    requires h.Holding? && |h.seen| == |h.ahead|
  {
    && (|h.seen| > 5 ==> h.seen[5] == 0) && (x.lock == Some(0) ==> NeverAhead(h.ahead))
    && forall c: nat :: c < 3 && c < |h.seen| ==>
      h.seen[c] == Number(x.docs, CountedKind(c)) + One(KindOf(h.job, h.part) == CountedKind(c))
          + One(h.ahead[c] == Some(CountedKind(c)))
  }

  ghost predicate Printed(x: System)
    requires Locked(x) && Written(x)
  {
    && x.counts.dispPort == 0
    && (forall k :: 0 <= k < |x.docs| ==> PrintsRight(x.docs, k))
    && (x.lock.Some? ==> PrintsSoFar(x, x.threads[x.lock.value]))
  }

  ghost predicate Inv(x: System) {
    Locked(x) && Written(x) && Paired(x) && Jobs(x) && CountsRight(x) && Printed(x)
  }

  // ----- every step keeps it -----

  /** Nothing that the file and the counts printed in it depend on has changed. */
  ghost predicate SameFile(x: System, y: System)
    requires Locked(x) && Locked(y)
  {
    && y.docs == x.docs && y.file == x.file && y.reportId == x.reportId && y.lock == x.lock
    && y.counts.dispPort == x.counts.dispPort
    && (x.lock.Some? ==> y.threads[x.lock.value] == x.threads[x.lock.value])
  }

  lemma SameFileKept(x: System, y: System)
    requires Locked(x) && Locked(y) && SameFile(x, y) && Written(x) && Paired(x) && Printed(x)
    ensures Written(y) && Paired(y) && Printed(y)
  {
    SamePlace(x, y);
    SameWritten(x, y);
    SamePaired(x, y);
    hide Locked, Written, Paired, PrintsRight, PrintsSoFar;
  }

  lemma SameWritten(x: System, y: System)
    requires Locked(x) && Locked(y) && SameFile(x, y) && Written(x)
    requires x.lock.Some? ==> InPlace(y, x.threads[x.lock.value])
    ensures Written(y)
  {
    hide Locked, WholeFile, Lines, AllComplete, InPlace;
  }

  lemma SamePaired(x: System, y: System)
    requires Locked(x) && Locked(y) && SameFile(x, y) && Paired(x)
    ensures Paired(y)
  {
    hide Locked, FirstOf;
  }

  lemma SamePlace(x: System, y: System)
    requires Locked(x) && Locked(y) && SameFile(x, y)
    ensures x.lock.Some? ==>
              var h := x.threads[x.lock.value];
              (InPlace(x, h) ==> InPlace(y, h))
                  && (|h.seen| == |h.ahead| && PrintsSoFar(x, h) ==> PrintsSoFar(y, h))
  {
    hide Length, Parts, Number;
  }

  lemma KeepBegin(x: System, i: nat, job: Job)
    requires Inv(x) && i < |x.threads| && x.threads[i].Idle? && Allowed(i, job)
    ensures Inv(Began(x, i, job))
  {
    BeginLocks(x, i, job);
    hide Locked, Written, Printed, Paired, SameFile, Allowed, Began;
    SameFileKept(x, Began(x, i, job));
    hide Jobs;
    forall c: nat | c < 3
      ensures CountRight(Began(x, i, job), c)
    {
      BeginCounts(x, i, job, c);
    }
    hide CountRight;
  }

  lemma BeginLocks(x: System, i: nat, job: Job)
    requires Locked(x) && i < |x.threads| && x.threads[i].Idle?
    ensures Locked(Began(x, i, job)) && SameFile(x, Began(x, i, job))
    ensures Jobs(x) && Allowed(i, job) ==> Jobs(Began(x, i, job))
  {
    CountedOne(x.counts, job.kind, 0);
    hide Counted, Allowed;
  }

  lemma CountedOne(c: Tally, kind: LogEvent, which: nat)
    requires which < 3
    ensures Counter(Counted(c, kind), which) == Counter(c, which) + One(kind == CountedKind(which))
    ensures Counted(c, kind).dispPort == c.dispPort
  {
  }

  lemma BeginCounts(x: System, i: nat, job: Job, c: nat)
    requires Locked(x) && i < |x.threads| && x.threads[i].Idle? && Allowed(i, job) && Locked(Began(x, i, job))
    requires c < 3 && CountRight(x, c)
    ensures CountRight(Began(x, i, job), c)
  {
    CountedOne(x.counts, job.kind, c);
    BeginLocks(x, i, job);
    assert Current(Began(x, i, job)) == Current(x);
    hide Counted, Counter, Number, Locked, SameFile, Current;
  }

  lemma AcquireLocks(x: System, i: nat)
    requires Locked(x) && i < |x.threads| && x.threads[i].Ready? && x.lock.None?
    ensures Locked(Acquired(x, i))
    ensures Jobs(x) ==> Jobs(Acquired(x, i)) && Allowed(i, x.threads[i].job)
  {
    hide Allowed;
  }

  lemma AcquireKeepsFile(x: System, i: nat)
    requires Locked(x) && i < |x.threads| && x.threads[i].Ready? && x.lock.None? && Locked(Acquired(x, i))
    requires Written(x) && Paired(x)
    ensures Written(Acquired(x, i)) && Paired(Acquired(x, i))
  {
    hide Locked;
    var y, h := Acquired(x, i), Holding(x.threads[i].job, 0, 0, 0, [], []);
    assert y.threads[i] == h && InPlace(y, h);
    EmptyLines(h.job, 0);
    hide WholeFile, Complete, AllComplete, Lines, InPlace, FirstOf;
    assert y.file == WholeFile(y.docs) + [];
  }

  lemma AcquireKeepsPrints(x: System, i: nat)
    requires Locked(x) && i < |x.threads| && x.threads[i].Ready? && x.lock.None? && Locked(Acquired(x, i))
    requires Written(x) && Printed(x) && Written(Acquired(x, i))
    ensures Printed(Acquired(x, i))
  {
    var h := Holding(x.threads[i].job, 0, 0, 0, [], []);
    assert PrintsSoFar(Acquired(x, i), h) && Acquired(x, i).threads[i] == h;
    hide Locked, PrintsRight, PrintsSoFar, WholeFile, Lines;
  }

  lemma AcquireCounts(x: System, i: nat, c: nat)
    requires Locked(x) && i < |x.threads| && x.threads[i].Ready? && x.lock.None? && Locked(Acquired(x, i))
    requires Allowed(i, x.threads[i].job) && c < 3 && CountRight(x, c)
    ensures CountRight(Acquired(x, i), c)
  {
    hide Counter, Number, Locked;
    var y := Acquired(x, i);
    assert y.threads[i] == Holding(x.threads[i].job, 0, 0, 0, [], []);
    assert Current(x) == None && Current(y) == Some(x.threads[i].job.kind);
    assert i != 0 ==> Pending(y) == Pending(x);
  }

  lemma KeepAcquire(x: System, i: nat)
    requires Inv(x) && i < |x.threads| && x.threads[i].Ready? && x.lock.None?
    ensures Inv(Acquired(x, i))
  {
    AcquireLocks(x, i);
    hide Acquired, Locked, Written, Paired, Jobs, Printed, CountRight;
    AcquireKeepsFile(x, i);
    AcquireKeepsPrints(x, i);
    forall c: nat | c < 3
      ensures CountRight(Acquired(x, i), c)
    {
      AcquireCounts(x, i, c);
    }
  }

  lemma ReleaseUnlocks(x: System, i: nat)
    requires Locked(x) && x.lock == Some(i) && i < |x.threads| && x.threads[i].Holding?
    ensures Locked(Released(x, i)) && (Jobs(x) ==> Jobs(Released(x, i)))
  {
    hide Allowed;
  }

  lemma ReleaseKeepsFile(x: System, i: nat)
    requires Locked(x) && x.lock == Some(i) && i < |x.threads| && x.threads[i].Holding?
    requires x.threads[i].part >= Parts(x.threads[i].job) && Locked(Released(x, i))
    requires Written(x) && Paired(x) && Printed(x)
    ensures var y := Released(x, i); Written(y) && Paired(y) && Printed(y)
  {
    var h := x.threads[i];
    assert Lines(h.id, h.job, h.part, h.seen, 0) == [];
    hide Locked, WholeFile, Lines, Complete, AllComplete, PrintsRight, PrintsSoFar, FirstOf, Length;
    assert x.file == WholeFile(x.docs);
  }

  lemma ReleaseCounts(x: System, i: nat, c: nat)
    requires Locked(x) && x.lock == Some(i) && i < |x.threads| && x.threads[i].Holding?
    requires x.threads[i].part >= Parts(x.threads[i].job) && Locked(Released(x, i))
    requires c < 3 && CountRight(x, c)
    ensures CountRight(Released(x, i), c)
  {
    hide Counter, Number, Locked;
    assert Current(x) == None && Pending(Released(x, i)) == Pending(x);
  }

  lemma KeepRelease(x: System, i: nat)
    requires Inv(x) && i < |x.threads| && x.threads[i].Holding? && x.threads[i].part >= Parts(x.threads[i].job)
    ensures Inv(Released(x, i))
  {
    assert x.lock == Some(i);
    ReleaseUnlocks(x, i);
    hide Released, Locked, Written, Paired, Jobs, Printed, CountRight;
    ReleaseKeepsFile(x, i);
    forall c: nat | c < 3
      ensures CountRight(Released(x, i), c)
    {
      ReleaseCounts(x, i, c);
    }
  }

  /** One more line of a document. */
  lemma LinesGrow(x: System, h: Thread)
    requires h.Holding? && InPlace(x, h)
    ensures var h' := Advanced(x, h);
            && |h'.seen| == CountsBy(h'.line) && |h'.ahead| == |h'.seen|
            && h'.id == |x.docs|
            && Lines(h'.id, h.job, h.part, h'.seen, h'.line)
            == Lines(h.id, h.job, h.part, h.seen, h.line) + NextRows(x, h)
  {
    hide Head, CountRow, BodyRows, Counter, Length, Pending, CountRows;
    if h.line == 0 {
      FirstLine(x.reportId, h.job, h.part);
      hide Lines;
      assert [] + NextRows(x, h) == NextRows(x, h);
      EmptyFrom(h.id, h.job, h.part);
    } else if h.line <= COUNTERS {
      CountLine(h.id, h.job, h.part, h.seen, Counter(x.counts, h.line - 1));
      hide Lines;
    } else {
      LengthIs(h.job, h.part);
      BodyLine(h.id, h.job, h.part, h.seen, h.line);
      hide Lines;
    }
  }

  lemma LengthIs(j: Job, part: nat)
    ensures Length(j, part) == 1 + COUNTERS + |BodyRows(BodyOf(j, part))|
  {
  }

  lemma EmptyFrom(id: nat, j: Job, part: nat)
    ensures Lines(id, j, part, [], 0) == []
  {
  }

  lemma FirstLine(id: nat, j: Job, part: nat)
    ensures Lines(id, j, part, [], 1) == Head(id, KindOf(j, part), TimeOf(j, part))
  {
    hide Head, BodyRows, CountRows;
    NoCounts();
    var head := Head(id, KindOf(j, part), TimeOf(j, part));
    assert Upto(BodyRows(BodyOf(j, part)), 0) == [] && head + [] + [] == head;
  }

  lemma CountLine(id: nat, j: Job, part: nat, seen: seq<nat>, value: nat)
    requires |seen| < COUNTERS
    ensures Lines(id, j, part, seen + [value], |seen| + 2)
         == Lines(id, j, part, seen, |seen| + 1) + [CountRow(|seen|, value)]
  {
    hide Head, CountRow, BodyRows, CountRows;
    CountRowsMore(seen, value);
    assert Upto(BodyRows(BodyOf(j, part)), 0) == [];
    MoreCounts(Head(id, KindOf(j, part), TimeOf(j, part)), CountRows(seen), [CountRow(|seen|, value)]);
  }

  lemma BodyLine(id: nat, j: Job, part: nat, seen: seq<nat>, line: nat)
    requires |seen| == COUNTERS < line && line - COUNTERS - 1 < |BodyRows(BodyOf(j, part))|
    ensures Lines(id, j, part, seen, line + 1)
         == Lines(id, j, part, seen, line) + [BodyRows(BodyOf(j, part))[line - COUNTERS - 1]]
  {
    hide Head, BodyRows, CountRows;
    var rows, n := BodyRows(BodyOf(j, part)), line - COUNTERS - 1;
    assert Upto(rows, n + 1) == Upto(rows, n) + [rows[n]];
    Assoc(Head(id, KindOf(j, part), TimeOf(j, part)) + CountRows(seen), Upto(rows, n), [rows[n]]);
  }

  lemma NoCounts()
    ensures CountRows([]) == []
  {
  }

  lemma MoreCounts(head: seq<LogFile.Row>, counts: seq<LogFile.Row>, more: seq<LogFile.Row>)
    ensures head + (counts + more) + [] == head + counts + [] + more
  {
    assert head + counts + [] == head + counts;
    assert head + (counts + more) + [] == head + (counts + more);
  }

  /** The file between the last line of a document and the bookkeeping for the next. */
  ghost predicate Extended(x: System, y: System, i: nat)
    requires i < |x.threads| && x.threads[i].Holding? && AllComplete(x.docs)
  {
    var h, h' := x.threads[i], Advanced(x, x.threads[i]);
    && |y.threads| == |x.threads| && y.threads == x.threads[i := h'] && y.lock == x.lock == Some(i) && y.docs == x.docs
    && y.reportId == |x.docs| + One(h'.line > COUNTERS)
    && h'.id == |x.docs| && |h'.ahead| == |h'.seen|
    && |h'.seen| == CountsBy(h'.line)
    && y.file == WholeFile(x.docs) + Lines(h'.id, h.job, h.part, h'.seen, h'.line)
  }

  lemma WriteExtends(x: System, i: nat)
    requires Locked(x) && Written(x) && i < |x.threads| && x.threads[i].Holding?
    ensures AllComplete(x.docs) && Extended(x, Continued(x, i), i)
  {
    var h := x.threads[i];
    assert x.lock == Some(i);
    LinesGrow(x, h);
    hide NextRows, Lines, WholeFile;
    Assoc(WholeFile(x.docs), Lines(h.id, h.job, h.part, h.seen, h.line), NextRows(x, h));
  }

  lemma FinishKeepsFile(x: System, i: nat)
    requires Locked(x) && Written(x) && i < |x.threads| && x.threads[i].Holding?
    requires x.threads[i].part < Parts(x.threads[i].job) && IsLast(x.threads[i])
    ensures var x' := AfterWrite(x, i); Locked(x') && Written(x')
  {
    WriteExtends(x, i);
    var y, d := Continued(x, i), Ended(x, i);
    EndedWhole(x, i);
    hide Lines, WholeFile, Continued, Ended;
    FinishWritten(y, i, d);
  }

  /** The last line completes the document. */
  lemma EndedWhole(x: System, i: nat)
    requires Locked(x) && i < |x.threads| && x.threads[i].Holding? && InPlace(x, x.threads[i])
    requires x.threads[i].part < Parts(x.threads[i].job) && IsLast(x.threads[i])
    ensures var h, h', d := x.threads[i], Advanced(x, x.threads[i]), Ended(x, i);
            && Complete(d) && d.id == |x.docs| && |h'.seen| == COUNTERS && h'.line == Length(h.job, h.part)
            && WholeDocument(d) == Lines(h'.id, h.job, h.part, h'.seen, h'.line)
  {
    LinesGrow(x, x.threads[i]);
    hide Lines, NextRows;
  }

  lemma FinishLocked(y: System, i: nat, d: Document)
    requires Locked(y) && i < |y.threads| && y.threads[i].Holding?
    ensures Locked(Finished(y, i, d))
  {
  }

  lemma FinishWritten(y: System, i: nat, d: Document)
    requires Locked(y) && i < |y.threads| && y.threads[i].Holding? && AllComplete(y.docs)
    requires forall k :: 0 <= k < |y.docs| ==> y.docs[k].id == k
    requires y.threads[i].part < Parts(y.threads[i].job) && Complete(d) && d.id == |y.docs|
    requires y.lock == Some(i) && y.reportId == |y.docs| + 1
    requires y.file == WholeFile(y.docs) + WholeDocument(d)
    ensures var x' := Finished(y, i, d); Locked(x') && Written(x')
  {
    hide WholeFile, Lines, WholeDocument, Complete, AllComplete, Locked, Written, Parts, InPlace;
    var h, x' := y.threads[i], Finished(y, i, d);
    var h' := Holding(h.job, h.part + 1, 0, 0, [], []);
    FinishLocked(y, i, d);
    WholeFileGrows(y.docs, d);
    IdsGrow(y.docs, d);
    EmptyLines(h.job, h.part + 1);
    FreshPlace(x', h');
    assert x'.file + [] == x'.file;
    WrittenWith(x', i, h');
  }

  lemma IdsGrow(docs: seq<Document>, d: Document)
    requires d.id == |docs| && forall k :: 0 <= k < |docs| ==> docs[k].id == k
    ensures forall k :: 0 <= k < |docs + [d]| ==> (docs + [d])[k].id == k
  {
  }

  lemma FreshPlace(x: System, h: Thread)
    requires h.Holding? && h == Holding(h.job, h.part, 0, 0, [], []) && h.part <= Parts(h.job)
    requires x.reportId == |x.docs|
    ensures InPlace(x, h)
  {
    hide Parts;
  }

  lemma WrittenWith(x: System, i: nat, h: Thread)
    requires Locked(x) && x.lock == Some(i) && i < |x.threads| && x.threads[i] == h && h.Holding?
    requires AllComplete(x.docs) && forall k :: 0 <= k < |x.docs| ==> x.docs[k].id == k
    requires InPlace(x, h) && x.file == WholeFile(x.docs) + Lines(h.id, h.job, h.part, h.seen, h.line)
    ensures Written(x)
  {
    hide Locked, InPlace, WholeFile, Lines, AllComplete;
  }

  lemma ContinueLocked(x: System, i: nat)
    requires Locked(x) && i < |x.threads| && x.threads[i].Holding?
    ensures Locked(Continued(x, i))
  {
    hide NextRows, Pending;
  }

  lemma ContinueKeepsFile(x: System, i: nat)
    requires Locked(x) && Written(x) && i < |x.threads| && x.threads[i].Holding?
    requires x.threads[i].part < Parts(x.threads[i].job) && !IsLast(x.threads[i])
    ensures var x' := AfterWrite(x, i); Locked(x') && Written(x')
  {
    ContinueLocked(x, i);
    WriteExtends(x, i);
    assert x.lock == Some(i);
    var y, h' := Continued(x, i), Advanced(x, x.threads[i]);
    AdvancedPlace(x, y, i);
    hide Lines, WholeFile, Continued, Locked, InPlace, Complete, AllComplete, Advanced;
    WrittenWith(y, i, h');
  }

  lemma AdvancedPlace(x: System, y: System, i: nat)
    requires i < |x.threads| && x.threads[i].Holding? && AllComplete(x.docs) && Extended(x, y, i)
    requires InPlace(x, x.threads[i]) && x.threads[i].part < Parts(x.threads[i].job) && !IsLast(x.threads[i])
    ensures InPlace(y, Advanced(x, x.threads[i]))
  {
    hide Lines, WholeFile, Pending, Counter, AllComplete;
  }

  lemma WriteKeepsFile(x: System, i: nat)
    requires Locked(x) && Written(x) && i < |x.threads| && x.threads[i].Holding?
    requires x.threads[i].part < Parts(x.threads[i].job)
    ensures var x' := AfterWrite(x, i); Locked(x') && Written(x')
  {
    hide AfterWrite, Locked, Written;
    if IsLast(x.threads[i]) {
      FinishKeepsFile(x, i);
    } else {
      ContinueKeepsFile(x, i);
    }
  }

  lemma EmptyLines(j: Job, part: nat)
    ensures Lines(0, j, part, [], 0) == []
  {
  }

  lemma WholeFileGrows(docs: seq<Document>, d: Document)
    requires AllComplete(docs) && Complete(d)
    ensures AllComplete(docs + [d]) && WholeFile(docs + [d]) == WholeFile(docs) + WholeDocument(d)
  {
    hide WholeDocument;
    assert (docs + [d])[..|docs|] == docs;
  }

  lemma WriteKeepsPairs(x: System, i: nat)
    requires Inv(x) && i < |x.threads| && x.threads[i].Holding? && x.threads[i].part < Parts(x.threads[i].job)
    ensures var x' := AfterWrite(x, i); Locked(x') && Paired(x') && Jobs(x')
  {
    hide CountsRight, Printed, NextRows, Lines, WholeFile, Written, BodyRows;
    var x', h := AfterWrite(x, i), x.threads[i];
    assert x.lock == Some(i);
    assert Allowed(i, h.job);
    assert x'.threads[i].Holding? && x'.threads[i].job == h.job;
  }

  lemma NumberGrows(docs: seq<Document>, d: Document, kind: LogEvent)
    ensures Number(docs + [d], kind) == Number(docs, kind) + One(KindOf(d.job, d.part) == kind)
  {
    assert (docs + [d])[..|docs|] == docs;
  }

  lemma WriteCounts(x: System, i: nat, c: nat)
    requires Locked(x) && x.lock == Some(i) && i < |x.threads| && x.threads[i].Holding?
    requires x.threads[i].part < Parts(x.threads[i].job) && Allowed(i, x.threads[i].job)
    requires Locked(AfterWrite(x, i)) && c < 3 && CountRight(x, c)
    ensures CountRight(AfterWrite(x, i), c)
  {
    hide Counter, Number, Locked, NextRows, Length;
    var y, h := AfterWrite(x, i), x.threads[i];
    assert y.counts == x.counts && Pending(y) == Pending(x);
    if IsLast(h) {
      NumberGrows(x.docs, Ended(x, i), CountedKind(c));
    }
  }

  lemma WriteKeepsCounts(x: System, i: nat)
    requires Inv(x) && i < |x.threads| && x.threads[i].Holding? && x.threads[i].part < Parts(x.threads[i].job)
    ensures var x' := AfterWrite(x, i); Locked(x') && CountsRight(x')
  {
    WriteKeepsPairs(x, i);
    assert x.lock == Some(i) && Allowed(i, x.threads[i].job);
    hide AfterWrite, Locked, Written, Paired, Jobs, Printed, CountRight, Allowed, Parts;
    forall c: nat | c < 3
      ensures CountRight(AfterWrite(x, i), c)
    {
      WriteCounts(x, i, c);
    }
  }

  /** The counts as they are printed now. */
  lemma PrintsAdvance(x: System, h: Thread)
    requires Inv(x) && x.lock.Some? && h == x.threads[x.lock.value] && h.part < Parts(h.job)
    ensures var h' := Advanced(x, h); |h'.seen| == |h'.ahead| && PrintsSoFar(x, h')
  {
    LinesGrow(x, h);
    assert Allowed(x.lock.value, h.job);
    CurrentKind(x, h);
    AheadAdvances(x, h);
    assert Locked(x) && CountsRight(x) && PrintsSoFar(x, h);
    hide Inv, Locked, Written, Paired, Jobs, Printed, CountsRight, Lines, WholeFile, NextRows, PrintsRight, PrintsSoFar;
    forall c: nat | c < 3 && c < |Advanced(x, h).seen|
      ensures PrintedAs(x, Advanced(x, h), c)
    {
      CountAdvances(x, h, c);
    }
    PrintsAll(x, Advanced(x, h));
  }

  predicate PrintedAs(x: System, h: Thread, c: nat)
    requires h.Holding? && c < 3 && c < |h.seen| && |h.seen| == |h.ahead|
  {
    h.seen[c] == Number(x.docs, CountedKind(c)) + One(KindOf(h.job, h.part) == CountedKind(c))
        + One(h.ahead[c] == Some(CountedKind(c)))
  }

  lemma PrintsAll(x: System, h: Thread)
    requires h.Holding? && |h.seen| == |h.ahead|
    requires (|h.seen| > 5 ==> h.seen[5] == 0) && (x.lock == Some(0) ==> NeverAhead(h.ahead))
    requires forall c: nat :: c < 3 && c < |h.seen| ==> PrintedAs(x, h, c)
    ensures PrintsSoFar(x, h)
  {
    hide Number, CountedKind, KindOf;
    forall c: nat | c < 3 && c < |h.seen|
      ensures h.seen[c] == Number(x.docs, CountedKind(c)) + One(KindOf(h.job, h.part) == CountedKind(c))
                + One(h.ahead[c] == Some(CountedKind(c)))
    {
      assert PrintedAs(x, h, c);
    }
  }

  lemma CountAdvances(x: System, h: Thread, c: nat)
    requires h.Holding? && InPlace(x, h) && PrintsSoFar(x, h) && Locked(x) && CountsRight(x)
    requires c < 3 && c < |Advanced(x, h).seen| && |Advanced(x, h).seen| == |Advanced(x, h).ahead|
    requires Current(x) == Some(CountedKind(c)) <==> KindOf(h.job, h.part) == CountedKind(c)
    ensures PrintedAs(x, Advanced(x, h), c)
  {
    hide Number, CountsRight, CountRight;
    var h' := Advanced(x, h);
    if c < |h.seen| {
      assert h'.seen[c] == h.seen[c] && h'.ahead[c] == h.ahead[c];
    } else {
      CounterNow(x, c);
      assert h'.seen[c] == Counter(x.counts, c) && h'.ahead[c] == Pending(x);
    }
  }

  /** While the worker writes, nothing of its own is pending. */
  lemma AheadAdvances(x: System, h: Thread)
    requires Locked(x) && x.lock.Some? && h == x.threads[x.lock.value] && x.counts.dispPort == 0
    requires InPlace(x, h) && PrintsSoFar(x, h)
    ensures var h' := Advanced(x, h);
            (|h'.seen| > 5 ==> h'.seen[5] == 0) && (x.lock == Some(0) ==> NeverAhead(h'.ahead))
  {
    hide Number;
  }

  lemma CounterNow(x: System, c: nat)
    requires Locked(x) && CountsRight(x) && c < 3
    ensures Counter(x.counts, c) == Number(x.docs, CountedKind(c)) + One(Current(x) == Some(CountedKind(c)))
              + One(Pending(x) == Some(CountedKind(c)))
  {
    assert CountRight(x, c);
  }

  /** A reply is no buffer event, so the document being written counts exactly if it is the request. */
  lemma CurrentKind(x: System, h: Thread)
    requires Locked(x) && x.lock.Some? && h == x.threads[x.lock.value] && h.part < Parts(h.job)
    requires Allowed(x.lock.value, h.job)
    ensures forall c: nat :: c < 3 ==> (Current(x) == Some(CountedKind(c)) <==> KindOf(h.job, h.part) == CountedKind(c))
  {
  }

  lemma PrintedWith(x: System, i: nat, h: Thread)
    requires Locked(x) && Written(x) && x.lock == Some(i) && i < |x.threads| && x.threads[i] == h && h.Holding?
    requires x.counts.dispPort == 0 && |h.seen| == |h.ahead| && PrintsSoFar(x, h)
    requires forall k :: 0 <= k < |x.docs| ==> Complete(x.docs[k]) && PrintsRight(x.docs, k)
    ensures Printed(x)
  {
    hide Locked, Complete, PrintsRight, PrintsSoFar, AllComplete, InPlace, WholeFile, Lines;
  }

  lemma SoFarStill(x: System, y: System, h: Thread)
    requires h.Holding? && |h.seen| == |h.ahead| && PrintsSoFar(x, h) && y.docs == x.docs && y.lock == x.lock
    ensures PrintsSoFar(y, h)
  {
    hide Number;
  }

  lemma NothingPrinted(x: System, h: Thread)
    requires h.Holding? && h.seen == [] && h.ahead == []
    ensures PrintsSoFar(x, h)
  {
  }

  /** The documents printed right so far, and the one that is finished now. */
  lemma DocumentsPrint(x: System, i: nat)
    requires Inv(x) && i < |x.threads| && x.threads[i].Holding?
    requires x.threads[i].part < Parts(x.threads[i].job) && IsLast(x.threads[i])
    ensures var docs := x.docs + [Ended(x, i)];
            forall k :: 0 <= k < |docs| ==> Complete(docs[k]) && PrintsRight(docs, k)
  {
    PrintsAdvance(x, x.threads[i]);
    EndedWhole(x, i);
    var d := Ended(x, i);
    assert Complete(d) && d.seen[5] == 0;
    DocumentPrints(x.docs, d);
    hide Lines, WholeFile, NextRows, Number, PrintsRight, PrintsSoFar, Complete, Ended;
    forall k | 0 <= k < |x.docs| + 1
      ensures Complete((x.docs + [d])[k]) && PrintsRight(x.docs + [d], k)
    {
      if k < |x.docs| {
        PrintsStill(x.docs, d, k);
      }
    }
  }

  lemma FinishKeepsPrints(x: System, i: nat)
    requires Inv(x) && i < |x.threads| && x.threads[i].Holding?
    requires x.threads[i].part < Parts(x.threads[i].job) && IsLast(x.threads[i])
    ensures var x' := AfterWrite(x, i); Locked(x') && Written(x') && Printed(x')
  {
    WriteKeepsFile(x, i);
    DocumentsPrint(x, i);
    assert x.lock == Some(i) && x.counts.dispPort == 0;
    var x', h := AfterWrite(x, i), x.threads[i];
    hide Inv, Locked, Written, Printed, PrintsRight, PrintsSoFar, Complete, Ended, Advanced, NextRows, IsLast, Parts;
    var h' := Holding(h.job, h.part + 1, 0, 0, [], []);
    NothingPrinted(x', h');
    PrintedWith(x', i, h');
  }

  lemma PrintsStill(docs: seq<Document>, d: Document, k: nat)
    requires k < |docs| && Complete(docs[k]) && PrintsRight(docs, k)
    ensures PrintsRight(docs + [d], k)
  {
    assert (docs + [d])[..k + 1] == docs[..k + 1];
  }

  lemma ContinueKeepsPrints(x: System, i: nat)
    requires Inv(x) && i < |x.threads| && x.threads[i].Holding?
    requires x.threads[i].part < Parts(x.threads[i].job) && !IsLast(x.threads[i])
    ensures var x' := AfterWrite(x, i); Locked(x') && Written(x') && Printed(x')
  {
    WriteKeepsFile(x, i);
    assert x.lock == Some(i) && x.counts.dispPort == 0;
    var x', h' := AfterWrite(x, i), Advanced(x, x.threads[i]);
    PrintsAdvance(x, x.threads[i]);
    hide Locked, Written, PrintsRight, PrintsSoFar, Advanced, NextRows, Parts, Paired, Jobs, CountsRight;
    SoFarStill(x, x', h');
    PrintedWith(x', i, h');
  }

  lemma WriteKeepsPrints(x: System, i: nat)
    requires Inv(x) && i < |x.threads| && x.threads[i].Holding? && x.threads[i].part < Parts(x.threads[i].job)
    ensures var x' := AfterWrite(x, i); Locked(x') && Written(x') && Printed(x')
  {
    hide AfterWrite, Inv, Locked, Written, Printed;
    if IsLast(x.threads[i]) {
      FinishKeepsPrints(x, i);
    } else {
      ContinueKeepsPrints(x, i);
    }
  }

  lemma DocumentPrints(docs: seq<Document>, d: Document)
    requires Complete(d) && d.seen[5] == 0 && (d.writer == 0 ==> NeverAhead(d.ahead))
    requires forall c: nat :: c < 3 ==>
               d.seen[c] == Number(docs, CountedKind(c)) + One(KindOf(d.job, d.part) == CountedKind(c))
                   + One(d.ahead[c] == Some(CountedKind(c)))
    ensures PrintsRight(docs + [d], |docs|)
  {
    assert (docs + [d])[..|docs| + 1] == docs + [d];
    forall c: nat | c < 3
      ensures d.seen[c] == Number(docs + [d], CountedKind(c)) + One(d.ahead[c] == Some(CountedKind(c)))
    {
      NumberGrows(docs, d, CountedKind(c));
    }
  }

  predicate AllowedMove(m: Move) {
    m.Begin? ==> Allowed(m.i, m.job)
  }

  lemma KeepStep(x: System, m: Move)
    requires Inv(x) && AllowedMove(m)
    ensures Inv(Step(x, m))
  {
    hide Inv, AfterWrite;
    if m.i < |x.threads| {
      var t := x.threads[m.i];
      match m {
        case Begin(i, job) =>
          if t.Idle? {
            KeepBegin(x, i, job);
          }
        case Acquire(i) =>
          if t.Ready? && x.lock.None? {
            KeepAcquire(x, i);
          }
        case Write(i) =>
          if t.Holding? && t.part < Parts(t.job) {
            KeepWrite(x, i);
          }
        case Release(i) =>
          if t.Holding? && t.part >= Parts(t.job) {
            KeepRelease(x, i);
          }
      }
    }
  }

  lemma KeepWrite(x: System, i: nat)
    requires Inv(x) && i < |x.threads| && x.threads[i].Holding? && x.threads[i].part < Parts(x.threads[i].job)
    ensures Inv(AfterWrite(x, i))
  {
    WriteKeepsFile(x, i);
    WriteKeepsPairs(x, i);
    WriteKeepsCounts(x, i);
    WriteKeepsPrints(x, i);
    hide AfterWrite, Locked, Written, Paired, Jobs, CountsRight, Printed;
  }

  lemma {:induction false} RunKeeps(n: nat, moves: seq<Move>)
    requires forall k :: 0 <= k < |moves| ==> AllowedMove(moves[k])
    ensures Inv(Run(n, moves))
  {
    if moves == [] {
    } else {
      var front := moves[..|moves| - 1];
      assert forall k :: 0 <= k < |front| ==> front[k] == moves[k];
      RunKeeps(n, front);
      hide Inv, Step;
      KeepStep(Run(n, front), moves[|moves| - 1]);
    }
  }

  // ----- the file as it is read -----

  /** The document as a value: its number, kind and time, the counts as they were printed, and its body. */
  function DocOf(d: Document): Doc
    requires Complete(d)
  {
    Doc(Meta(d.id, KindOf(d.job, d.part), TimeOf(d.job, d.part), TallyOf(d.seen)), BodyOf(d.job, d.part))
  }

  function DocsOf(docs: seq<Document>): (r: seq<Doc>)
    requires AllComplete(docs)
    ensures |r| == |docs| && forall k :: 0 <= k < |docs| ==> r[k] == DocOf(docs[k])
  {
    seq(|docs|, k requires 0 <= k < |docs| => DocOf(docs[k]))
  }

  lemma WholeIsRows(d: Document)
    requires Complete(d)
    ensures WholeDocument(d) == LogFile.DocRows(DocOf(d))
  {
    hide Head, CountRows, BodyRows, LogFile.DocRows;
    DocumentRows(d.id, KindOf(d.job, d.part), TimeOf(d.job, d.part), d.seen, BodyOf(d.job, d.part));
  }

  lemma {:induction false} WholeFileIsRows(docs: seq<Document>)
    requires AllComplete(docs)
    ensures WholeFile(docs) == LogFile.FileRows(DocsOf(docs))
  {
    hide WholeDocument, DocOf, LogFile.DocRows;
    if docs == [] {
    } else {
      var front, d := docs[..|docs| - 1], docs[|docs| - 1];
      WholeFileIsRows(front);
      WholeIsRows(d);
      assert DocsOf(docs) == DocsOf(front) + [DocOf(d)];
      LogFile.FileRowsConcat(DocsOf(front), [DocOf(d)]);
      LogFile.FileRowsOne(DocOf(d));
    }
  }

  /**
   In every interleaving the file starts with the whole documents written so far, and whenever nobody holds the
   mutex it is exactly these and loads as their trees.  They are numbered 0, 1, 2 and so on, every reply right
   after its request.
   */
  lemma LogIsAtomic(n: nat, moves: seq<Move>)
    requires forall k :: 0 <= k < |moves| ==> AllowedMove(moves[k])
    ensures var x := Run(n, moves);
            && AllComplete(x.docs)
            && LogFile.FileRows(DocsOf(x.docs)) <= x.file
            && (x.lock.None? ==>
                  && x.file == LogFile.FileRows(DocsOf(x.docs)) && x.reportId == |x.docs|
                  && LogFile.LoadAll(LogFile.Documents(x.file)) == Some(LogFile.Trees(DocsOf(x.docs))))
            && (forall k :: 0 <= k < |x.docs| ==> x.docs[k].id == k)
            && (forall k :: 0 <= k < |x.docs| && x.docs[k].part == 1 ==>
                  k > 0 && FirstOf(x.docs[k - 1], x.docs[k].writer, x.docs[k].job))
  {
    RunKeeps(n, moves);
    hide Run, WholeFile, Lines, DocsOf, LogFile.FileRows, LogFile.LoadAll, LogFile.Documents, LogFile.Trees;
    var docs := Run(n, moves).docs;
    WholeFileIsRows(docs);
    LogFile.FileReadsBack(DocsOf(docs));
  }

  /**
   The create, remove and display counts printed in a document are the documents of that kind up to and
   including it, and one more exactly if the worker had just then counted such an event and waited for the
   mutex.  That never happens to the worker's own documents.  The port count is never raised.
   */
  lemma PrintedCounts(n: nat, moves: seq<Move>, k: nat, c: nat)
    requires forall i :: 0 <= i < |moves| ==> AllowedMove(moves[i])
    requires k < |Run(n, moves).docs| && c < 3
    ensures var docs := Run(n, moves).docs;
            && Complete(docs[k]) && docs[k].seen[5] == 0
            && docs[k].seen[c] == Number(docs[..k + 1], CountedKind(c)) + One(docs[k].ahead[c] == Some(CountedKind(c)))
            && (docs[k].writer == 0 ==> docs[k].seen[c] == Number(docs[..k + 1], CountedKind(c)))
  {
    RunKeeps(n, moves);
    var docs := Run(n, moves).docs;
    assert PrintsRight(docs, k);
    hide Run, Inv, Number, CountedKind;
  }

  lemma RunNext(n: nat, moves: seq<Move>, m: Move)
    ensures Run(n, moves + [m]) == Step(Run(n, moves), m)
  {
    assert (moves + [m])[..|moves|] == moves;
  }

  const NO_EVENT := DisplayEvent(0, 0, 0, 0)
  const CREATING := Job(EVENT_CREATE_BUFFER, 0, BufferBody(NO_EVENT, None, None, None), None, 0, NoBody)
  const RESIZING := Job(EVENT_CHANGE_RESOLUTION, 0,
                        InfoBody(NO_EVENT, DisplayInfo(0, 0, 0, 0, 0, "0", "0", "0", 0, 0, 0)), None, 0, NoBody)

  /** The lines of setMode's document. */
  function LastLine(): nat {
    Length(RESIZING, 0)
  }

  /** The other outcome is possible: setMode's document counts a create that is in no document yet. */
  lemma CountRunsAhead()
    ensures exists moves: seq<Move> ::
              && (forall i :: 0 <= i < |moves| ==> AllowedMove(moves[i]))
              && var docs := Run(2, moves).docs;
                 |docs| == 1 && Complete(docs[0]) && docs[0].seen[0] == 1 && Number(docs, EVENT_CREATE_BUFFER) == 0
  {
    ResizingFirst();
    MovesAllowed(LastLine());
    hide Run, Complete, AllowedMove, Number, LastLine, Writes, FIRST_MOVES;
  }

  const FIRST_MOVES := [Begin(0, CREATING), Begin(1, RESIZING), Acquire(1)]

  lemma ResizingFirst()
    ensures var docs := Run(2, FIRST_MOVES + Writes(LastLine())).docs;
            |docs| == 1 && Complete(docs[0]) && docs[0].seen[0] == 1 && Number(docs, EVENT_CREATE_BUFFER) == 0
  {
    ThreeMoves();
    hide Run, LastLine, Complete, Step;
    RunWrites(FIRST_MOVES, LastLine());
    FirstDocument(Run(2, FIRST_MOVES), LastLine());
    OneDocument(Run(2, FIRST_MOVES + Writes(LastLine())).docs);
  }

  lemma MovesAllowed(k: nat)
    ensures var moves := FIRST_MOVES + Writes(k);
            forall i :: 0 <= i < |moves| ==> AllowedMove(moves[i])
  {
  }

  lemma OneDocument(docs: seq<Document>)
    requires |docs| == 1 && docs[0].job == RESIZING && docs[0].part == 0
    ensures Number(docs, EVENT_CREATE_BUFFER) == 0
  {
    assert docs[..0] == [];
  }

  lemma ThreeMoves()
    ensures var x := Run(2, FIRST_MOVES);
            x.threads == [Ready(CREATING), Holding(RESIZING, 0, 0, 0, [], [])] && x.counts.create == 1 && x.docs == []
  {
    var a, b, c := Begin(0, CREATING), Begin(1, RESIZING), Acquire(1);
    RunNext(2, [], a);
    RunNext(2, [a], b);
    RunNext(2, [a, b], c);
    assert [] + [a] == [a] && [a] + [b] == [a, b] && [a, b] + [c] == [a, b, c];
    assert Run(2, []) == Start(2);
  }

  function Writes(k: nat): seq<Move> {
    seq(k, _ => Write(1))
  }

  function WriteMore(x: System, k: nat): System
    decreases k
  {
    if k == 0 then x else Step(WriteMore(x, k - 1), Write(1))
  }

  lemma {:induction false} RunWrites(moves: seq<Move>, k: nat)
    ensures Run(2, moves + Writes(k)) == WriteMore(Run(2, moves), k)
  {
    hide Run, Step;
    if k == 0 {
      assert moves + Writes(0) == moves;
    } else {
      RunWrites(moves, k - 1);
      RunNext(2, moves + Writes(k - 1), Write(1));
      assert moves + Writes(k - 1) + [Write(1)] == moves + Writes(k);
    }
  }

  /** The first document, line by line, by a thread that got ahead of the worker. */
  lemma {:induction false} FirstDocument(x: System, k: nat)
    requires k <= LastLine()
    requires x.threads == [Ready(CREATING), Holding(RESIZING, 0, 0, 0, [], [])] && x.counts.create == 1 && x.docs == []
    ensures k < LastLine() ==> Underway(WriteMore(x, k), k)
    ensures k == LastLine() ==>
              var docs := WriteMore(x, k).docs;
              |docs| == 1 && Complete(docs[0]) && docs[0].job == RESIZING && docs[0].part == 0 && docs[0].seen[0] == 1
  {
    hide BodyRows, NextRows;
    if k > 0 {
      FirstDocument(x, k - 1);
      hide WriteMore;
      assert Underway(WriteMore(x, k - 1), k - 1);
    }
  }

  predicate Underway(y: System, line: nat) {
    && |y.threads| == 2 && y.docs == [] && y.counts.create == 1 && y.threads[1].Holding? && y.threads[1].job == RESIZING
    && y.threads[1].part == 0 && y.threads[1].line == line && line < LastLine()
    && |y.threads[1].seen| == |y.threads[1].ahead| == CountsBy(line)
    && (line >= 2 ==> y.threads[1].seen[0] == 1)
  }
}
