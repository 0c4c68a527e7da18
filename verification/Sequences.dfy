/** Facts about concatenation, stated once for any element type. */
module Sequences {

  lemma Assoc<T>(a: seq<T>, b: seq<T>, c: seq<T>)
    ensures a + b + c == a + (b + c)
  {
  }

  lemma HeadTail<T>(head: seq<T>, tail: seq<T>)
    requires head != []
    ensures (head + tail)[0] == head[0]
    ensures (head + tail)[1..] == head[1..] + tail
    ensures (head + tail)[1..|head|] == head[1..]
    ensures (head + tail)[|head|..] == tail
  {
  }

  lemma Cons<T>(x: T, rest: seq<T>)
    ensures ([x] + rest)[0] == x && ([x] + rest)[1..] == rest
  {
  }

  lemma Uncons<T>(s: seq<T>)
    requires s != []
    ensures [s[0]] + s[1..] == s
  {
  }

  lemma SliceOfSlice<T>(s: seq<T>, from: nat, n: nat, at: nat, m: nat)
    requires from + n <= |s| && at + m <= n
    ensures s[from..from + n][at..at + m] == s[from + at..from + at + m]
  {
    var t := s[from..from + n];
    var x, y := t[at..at + m], s[from + at..from + at + m];
    assert |x| == |y| && forall k :: 0 <= k < m ==> x[k] == t[at + k] && y[k] == s[from + at + k];
  }
}
