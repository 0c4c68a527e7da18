/**
 VirtualGpsReceiver::Write and ::Read: whole-buffer transfers over a socket.  Interrupted calls are retried
 from one budget of 100 attempts shared by the whole transfer.
 */
module GpsTransfer {
  import opened Bytes

  const ATTEMPTS := 100

  /** The kernel's answer to one read or write. */
  datatype Answer = Moved(n: nat) | PeerClosed | Interrupted | Failed

  /** Answers by call number and bytes asked for; the kernel moves at least one byte and no more than asked. */
  type Kernel = (nat, nat) -> Answer

  ghost predicate Honest(kernel: Kernel) {
    forall call: nat, left: nat :: left > 0 && kernel(call, left).Moved? ==> 1 <= kernel(call, left).n <= left
  }

  datatype Result = Complete | Closed | Error

  /** How a transfer ends: result, bytes moved, kernel calls made and interrupted calls retried. */
  datatype Ending = Ending(result: Result, moved: nat, calls: nat, retried: nat)

  function Transfer(kernel: Kernel, call: nat, left: nat, attempt: nat): (e: Ending)
    requires Honest(kernel) && attempt > 0
    ensures e.moved <= left && (e.result.Complete? <==> e.moved == left)
    ensures e.retried < attempt
    ensures e.calls <= e.moved + e.retried + 1
    decreases left, attempt
  {
    if left == 0 then Ending(Complete, 0, 0, 0)
    else
      match kernel(call, left)
      case Moved(n) =>
        var e := Transfer(kernel, call + 1, left - n, attempt);
        e.(moved := e.moved + n, calls := e.calls + 1)
      case PeerClosed => Ending(Closed, 0, 1, 0)
      case Failed => Ending(Error, 0, 1, 0)
      case Interrupted =>
        if attempt - 1 > 0 then
          var e := Transfer(kernel, call + 1, left, attempt - 1);
          e.(calls := e.calls + 1, retried := e.retried + 1)
        else Ending(Error, 0, 1, 0)
  }

  /** The return value of Write and Read. */
  function ReturnValue(e: Ending): int {
    match e.result
    case Complete => e.moved
    case Closed => 0
    case Error => -1
  }

  /** The answers the kernel gave during a transfer: bytes left and interrupts so far, before call number i. */
  function LeftBefore(kernel: Kernel, left: nat, i: nat): nat
    requires Honest(kernel)
  {
    if i == 0 then left
    else
      var l := LeftBefore(kernel, left, i - 1);
      if l > 0 && kernel(i - 1, l).Moved? then l - kernel(i - 1, l).n else l
  }

  function InterruptsBefore(kernel: Kernel, left: nat, i: nat): nat
    requires Honest(kernel)
  {
    if i == 0 then 0
    else
      var l := LeftBefore(kernel, left, i - 1);
      InterruptsBefore(kernel, left, i - 1) + if l > 0 && kernel(i - 1, l).Interrupted? then 1 else 0
  }

  /** The kernel's first `n` answers include no error and no more than 99 interrupts. */
  ghost predicate Smooth(kernel: Kernel, left: nat, n: nat)
    requires Honest(kernel)
  {
    && InterruptsBefore(kernel, left, n) < ATTEMPTS
    && forall i: nat :: i < n ==>
         var l := LeftBefore(kernel, left, i);
         l > 0 && !kernel(i, l).PeerClosed? && !kernel(i, l).Failed?
  }

  lemma BeforeStep(kernel: Kernel, left: nat, i: nat)
    requires Honest(kernel)
    ensures var l, k := LeftBefore(kernel, left, i), InterruptsBefore(kernel, left, i);
            l > 0 ==>
              && LeftBefore(kernel, left, i + 1) == (if kernel(i, l).Moved? then l - kernel(i, l).n else l)
              && InterruptsBefore(kernel, left, i + 1) == k + (if kernel(i, l).Interrupted? then 1 else 0)
  {
  }

  lemma SmoothFront(kernel: Kernel, left: nat, i: nat)
    requires Honest(kernel) && i > 0 && Smooth(kernel, left, i)
    ensures Smooth(kernel, left, i - 1) && InterruptsBefore(kernel, left, i) < ATTEMPTS
    ensures var l := LeftBefore(kernel, left, i - 1);
            l > 0 && !kernel(i - 1, l).PeerClosed? && !kernel(i - 1, l).Failed?
  {
    hide LeftBefore;
  }

  /** One call that neither fails nor spends the last attempt: `l` bytes left and `k` interrupts before it. */
  lemma TransferStep(kernel: Kernel, call: nat, l: nat, k: nat, l': nat, k': nat)
    requires Honest(kernel) && l > 0 && !kernel(call, l).PeerClosed? && !kernel(call, l).Failed?
    requires l' == if kernel(call, l).Moved? then l - kernel(call, l).n else l
    requires k' == (k + if kernel(call, l).Interrupted? then 1 else 0) < ATTEMPTS
    ensures var all, e := Transfer(kernel, call, l, ATTEMPTS - k), Transfer(kernel, call + 1, l', ATTEMPTS - k');
            && all.result == e.result && all.calls == e.calls + 1
            && all.moved == e.moved + (l - l') && all.retried == e.retried + (k' - k)
  {
  }

  lemma {:induction false} TransferFrom(kernel: Kernel, left: nat, i: nat)
    requires Honest(kernel) && Smooth(kernel, left, i)
    ensures var e := Transfer(kernel, i, LeftBefore(kernel, left, i), ATTEMPTS - InterruptsBefore(kernel, left, i));
            var all := Transfer(kernel, 0, left, ATTEMPTS);
            && all.result == e.result && all.calls == e.calls + i
            && all.moved == e.moved + (left - LeftBefore(kernel, left, i))
            && all.retried == e.retried + InterruptsBefore(kernel, left, i)
    decreases i
  {
    hide Transfer;
    if i == 0 {
    } else {
      SmoothFront(kernel, left, i);
      BeforeStep(kernel, left, i - 1);
      hide LeftBefore, InterruptsBefore, Smooth;
      TransferFrom(kernel, left, i - 1);
      TransferStep(kernel, i - 1, LeftBefore(kernel, left, i - 1), InterruptsBefore(kernel, left, i - 1),
          LeftBefore(kernel, left, i), InterruptsBefore(kernel, left, i));
    }
  }

  /**
   A transfer of `left` bytes is complete exactly when the kernel moves them all, over any number of calls,
   before any error, close or hundredth interrupt.
   */
  lemma CompleteIffSmooth(kernel: Kernel, left: nat)
    requires Honest(kernel)
    ensures Transfer(kernel, 0, left, ATTEMPTS).result.Complete?
       <==> exists n: nat :: LeftBefore(kernel, left, n) == 0 && Smooth(kernel, left, n)
  {
    if n: nat :| LeftBefore(kernel, left, n) == 0 && Smooth(kernel, left, n) {
      TransferFrom(kernel, left, n);
    }
    if Transfer(kernel, 0, left, ATTEMPTS).result.Complete? {
      ReachEnd(kernel, left, 0);
    }
  }

  /** A call that ends a transfer early leaves it incomplete. */
  lemma EndsAt(kernel: Kernel, call: nat, left: nat, attempt: nat)
    requires Honest(kernel) && attempt > 0 && Transfer(kernel, call, left, attempt).result.Complete?
    ensures left > 0 ==>
              match kernel(call, left)
              case Moved(_) => true
              case Interrupted => attempt > 1
              case _ => false
  {
  }

  lemma SmoothNext(kernel: Kernel, left: nat, i: nat)
    requires Honest(kernel) && Smooth(kernel, left, i)
    requires var l := LeftBefore(kernel, left, i);
             l > 0 && !kernel(i, l).PeerClosed? && !kernel(i, l).Failed?
    requires InterruptsBefore(kernel, left, i + 1) < ATTEMPTS
    ensures Smooth(kernel, left, i + 1)
  {
    hide LeftBefore, InterruptsBefore;
  }

  lemma {:induction false} ReachEnd(kernel: Kernel, left: nat, i: nat)
    requires Honest(kernel) && Smooth(kernel, left, i)
    requires Transfer(kernel, 0, left, ATTEMPTS).result.Complete?
    ensures exists n: nat :: LeftBefore(kernel, left, n) == 0 && Smooth(kernel, left, n)
    decreases LeftBefore(kernel, left, i), ATTEMPTS - InterruptsBefore(kernel, left, i)
  {
    TransferFrom(kernel, left, i);
    var l, k := LeftBefore(kernel, left, i), InterruptsBefore(kernel, left, i);
    BeforeStep(kernel, left, i);
    EndsAt(kernel, i, l, ATTEMPTS - k);
    if l > 0 {
      SmoothNext(kernel, left, i);
      hide Transfer, LeftBefore, InterruptsBefore, Smooth;
      ReachEnd(kernel, left, i + 1);
    }
  }

  /** A transfer `all` in progress: `offset` bytes moved in `calls` calls, the rest as Transfer says. */
  ghost predicate Under(kernel: Kernel, all: Ending, calls: nat, left: nat, attempt: nat, offset: nat)
    requires Honest(kernel) && attempt > 0
  {
    var e := Transfer(kernel, calls, left, attempt);
    all.result == e.result && all.moved == e.moved + offset && all.calls == e.calls + calls
  }

  /** The transfer that starts when `calls` calls have been made on the socket, all calls counted. */
  function Whole(kernel: Kernel, calls: nat, left: nat): (e: Ending)
    requires Honest(kernel)
  {
    var e := Transfer(kernel, calls, left, ATTEMPTS);
    e.(calls := calls + e.calls)
  }

  lemma UnderStarts(kernel: Kernel, calls: nat, left: nat)
    requires Honest(kernel)
    ensures Under(kernel, Whole(kernel, calls, left), calls, left, ATTEMPTS, 0)
  {
    hide Transfer;
  }

  lemma UnderStep(kernel: Kernel, all: Ending, calls: nat, left: nat, attempt: nat, offset: nat)
    requires Honest(kernel) && attempt > 0 && Under(kernel, all, calls, left, attempt, offset)
    ensures offset <= all.moved
    ensures left == 0 ==> all.result.Complete? && all.moved == offset && all.calls == calls
    ensures left > 0 ==>
              match kernel(calls, left)
              case Moved(n) => n <= left && Under(kernel, all, calls + 1, left - n, attempt, offset + n)
              case PeerClosed => all.result.Closed? && all.moved == offset && all.calls == calls + 1
              case Failed => all.result.Error? && all.moved == offset && all.calls == calls + 1
              case Interrupted =>
                if attempt > 1 then Under(kernel, all, calls + 1, left, attempt - 1, offset)
                else all.result.Error? && all.moved == offset && all.calls == calls + 1
  {
  }

  class Socket {
    const kernel: Kernel
    /** Bytes the peer will send, and how many of them have been read. */
    const inbound: seq<byte>
    var read: nat
    var sent: seq<byte>
    var calls: nat
    var connected: bool

    constructor (kernel: Kernel, inbound: seq<byte>)
      ensures this.kernel == kernel && this.inbound == inbound
      ensures read == 0 && sent == [] && calls == 0 && connected
    {
      this.kernel, this.inbound := kernel, inbound;
      read, sent, calls, connected := 0, [], 0, true;
    }

    method Disconnect()
      modifies this`connected
      ensures !connected
    {
      connected := false;
    }

    /** The inner loop: calls until the answer is not an interrupt, or the budget is spent. */
    method Call(left: nat, attempt: nat, ghost all: Ending, ghost offset: nat) returns (answer: Answer, attempt': nat)
      requires Honest(kernel) && left > 0 && attempt > 0 && Under(kernel, all, calls, left, attempt, offset)
      modifies this`calls
      ensures 0 < attempt' <= attempt && calls > old(calls)
      ensures match answer
              case Moved(n) => 1 <= n <= left && Under(kernel, all, calls, left - n, attempt', offset + n)
              case PeerClosed => all.result.Closed? && all.moved == offset && all.calls == calls
              case _ => all.result.Error? && all.moved == offset && all.calls == calls
    {
      hide Under, Transfer;
      attempt' := attempt;
      UnderStep(kernel, all, calls, left, attempt', offset);
      answer := kernel(calls, left);
      while answer.Interrupted? && attempt' - 1 > 0
        invariant 0 < attempt' <= attempt && calls >= old(calls)
        invariant answer == kernel(calls, left) && Under(kernel, all, calls, left, attempt', offset)
        decreases attempt'
      {
        UnderStep(kernel, all, calls, left, attempt', offset);
        attempt' := attempt' - 1;
        calls := calls + 1;
        answer := kernel(calls, left);
      }
      UnderStep(kernel, all, calls, left, attempt', offset);
      calls := calls + 1;
    }

    /** Sends a prefix of buf, all of it when the result is positive; closes the socket when the peer did. */
    method Write(buf: seq<byte>) returns (result: int)
      requires Honest(kernel)
      modifies this
      ensures var e := Transfer(kernel, old(calls), |buf|, ATTEMPTS);
              && result == ReturnValue(e) && calls == old(calls) + e.calls
              && sent == old(sent) + buf[..e.moved]
              && connected == (old(connected) && !e.result.Closed?)
    {
      hide Under, Transfer;
      var offset, left: nat, attempt: nat := 0, |buf|, ATTEMPTS;
      ghost var all := Whole(kernel, calls, |buf|);
      UnderStarts(kernel, calls, |buf|);
      while left > 0
        invariant 0 <= offset && offset + left == |buf| && attempt > 0
        invariant sent == old(sent) + buf[..offset] && connected == old(connected)
        invariant Under(kernel, all, calls, left, attempt, offset)
      {
        var answer;
        answer, attempt := Call(left, attempt, all, offset);
        match answer {
          case PeerClosed =>
            Disconnect();
            return 0;
          case Moved(n) =>
            assert buf[..offset + n] == buf[..offset] + buf[offset..offset + n];
            sent := sent + buf[offset..offset + n];
            left := left - n;
            offset := offset + n;
          case _ =>
            return -1;
        }
      }
      UnderStep(kernel, all, calls, left, attempt, offset);
      return offset;
    }

    /**
     Fills the front of buf with the peer's next bytes, all of it when the result is positive; the kernel hands
     out only what the peer sends.
     */
    method Read(buf: array<byte>) returns (result: int)
      requires Honest(kernel)
      requires read + Transfer(kernel, calls, buf.Length, ATTEMPTS).moved <= |inbound|
      modifies this, buf
      ensures var e := Transfer(kernel, old(calls), buf.Length, ATTEMPTS);
              && result == ReturnValue(e) && calls == old(calls) + e.calls
              && read == old(read) + e.moved <= |inbound|
              && buf[..e.moved] == inbound[old(read)..read]
              && buf[e.moved..] == old(buf[..])[e.moved..]
              && connected == (old(connected) && !e.result.Closed?)
    {
      hide Under, Transfer;
      var offset, left: nat, attempt: nat := 0, buf.Length, ATTEMPTS;
      ghost var all := Whole(kernel, calls, buf.Length);
      UnderStarts(kernel, calls, buf.Length);
      while left > 0
        invariant 0 <= offset && offset + left == buf.Length && attempt > 0
        invariant read == old(read) + offset <= |inbound| && connected == old(connected)
        invariant forall i :: 0 <= i < offset ==> buf[i] == inbound[old(read) + i]
        invariant forall i :: offset <= i < buf.Length ==> buf[i] == old(buf[i])
        invariant Under(kernel, all, calls, left, attempt, offset)
      {
        var answer;
        answer, attempt := Call(left, attempt, all, offset);
        match answer {
          case PeerClosed =>
            Disconnect();
            return 0;
          case Moved(n) =>
            UnderStep(kernel, all, calls, left - n, attempt, offset + n);
            forall i | 0 <= i < n {
              buf[offset + i] := inbound[read + i];
            }
            read := read + n;
            left := left - n;
            offset := offset + n;
          case _ =>
            return -1;
        }
      }
      UnderStep(kernel, all, calls, left, attempt, offset);
      return offset;
    }
  }
}
