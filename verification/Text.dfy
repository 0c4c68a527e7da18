/**
 Numbers as text: what printf's %d, %u, %ld and %X write, and the value of a run of digits.
 The readers (scanf for touch commands, yaml-cpp for the log) are built on these definitions.
 */
module Text {

  predicate IsBase(base: nat) {
    base == 8 || base == 10 || base == 16
  }

  predicate IsDigit(base: nat, c: char)
    requires IsBase(base)
  {
    if base == 16 then '0' <= c <= '9' || 'A' <= c <= 'F' || 'a' <= c <= 'f'
    else '0' <= c && c as int < '0' as int + base
  }

  function DigitValue(c: char): nat
    requires IsDigit(16, c)
  {
    if c <= '9' then c as int - '0' as int
    else if c <= 'F' then c as int - 'A' as int + 10
    else c as int - 'a' as int + 10
  }

  function DigitChar(d: nat): (c: char)
    requires d < 16
    ensures IsDigit(16, c) && DigitValue(c) == d && c != '-'
    ensures d < 10 ==> IsDigit(10, c)
  {
    if d < 10 then ('0' as int + d) as char else ('A' as int + d - 10) as char
  }

  predicate AllDigits(base: nat, s: string)
    requires IsBase(base)
  {
    forall i :: 0 <= i < |s| ==> IsDigit(base, s[i])
  }

  /** The text of a natural number, most significant digit first, no leading zero. */
  function NatText(base: nat, n: nat): (s: string)
    requires base == 10 || base == 16
    ensures |s| > 0 && AllDigits(base, s)
    ensures s[0] == '0' ==> n == 0 && s == "0"
    decreases n
  {
    if n < base then [DigitChar(n)]
    else NatText(base, n / base) + [DigitChar(n % base)]
  }

  /** The value of a run of digits. */
  function NatValue(base: nat, s: string): nat
    requires IsBase(base) && AllDigits(base, s)
  {
    if s == "" then 0
    else NatValue(base, s[..|s| - 1]) * base + DigitValue(s[|s| - 1])
  }

  lemma {:induction false} NatTextValue(base: nat, n: nat)
    requires base == 10 || base == 16
    ensures NatValue(base, NatText(base, n)) == n
    decreases n
  {
    var s := NatText(base, n);
    if n < base {
      assert s[..|s| - 1] == "";
    } else {
      NatTextValue(base, n / base);
      assert s[..|s| - 1] == NatText(base, n / base);
      if base == 10 {} else {}
    }
  }

  /** printf("%d") */
  function Dec(n: int): (s: string)
    ensures |s| > 0
  {
    if n < 0 then "-" + NatText(10, -n) else NatText(10, n)
  }

  /** The number of digits at the front of a string. */
  function DigitRun(base: nat, s: string): (n: nat)
    requires IsBase(base)
    ensures n <= |s| && AllDigits(base, s[..n])
    ensures n < |s| ==> !IsDigit(base, s[n])
  {
    if s == "" || !IsDigit(base, s[0]) then 0
    else
      var n := 1 + DigitRun(base, s[1..]);
      assert forall i :: 1 <= i < n ==> s[i] == s[1..][i - 1];
      n
  }

  lemma {:induction false} DigitRunUnique(base: nat, s: string, n: nat)
    requires IsBase(base) && n <= |s| && AllDigits(base, s[..n])
    requires n < |s| ==> !IsDigit(base, s[n])
    ensures DigitRun(base, s) == n
  {
    var k := DigitRun(base, s);
    assert forall i {:trigger s[i]} :: 0 <= i < n ==> s[i] == s[..n][i];
    assert forall i {:trigger s[i]} :: 0 <= i < k ==> s[i] == s[..k][i];
  }

  // ----- comma-separated fields -----

  predicate NoComma(s: string) {
    forall i :: 0 <= i < |s| ==> s[i] != ','
  }

  function Join(fields: seq<string>): string
    requires |fields| > 0
  {
    if |fields| == 1 then fields[0] else fields[0] + "," + Join(fields[1..])
  }

  /** The comma-separated fields of a text. */
  function Split(s: string): (r: seq<string>)
    ensures |r| > 0
  {
    if s == "" then [""]
    else
      var r := Split(s[1..]);
      if s[0] == ',' then [""] + r else [[s[0]] + r[0]] + r[1..]
  }

  lemma {:induction false} SplitFirst(field: string, rest: string)
    requires NoComma(field)
    ensures Split(field + "," + rest) == [field] + Split(rest)
  {
    var s := field + "," + rest;
    if field == "" {
      assert s[0] == ',' && s[1..] == rest;
    } else {
      SplitFirst(field[1..], rest);
      assert s[0] == field[0] && s[1..] == field[1..] + "," + rest;
      assert [s[0]] + field[1..] == field;
    }
  }

  lemma {:induction false} SplitLast(field: string)
    requires NoComma(field)
    ensures Split(field) == [field]
  {
    if field != "" {
      SplitLast(field[1..]);
      assert [field[0]] + field[1..] == field;
    }
  }

  lemma {:induction false} SplitJoin(fields: seq<string>)
    requires |fields| > 0 && forall i :: 0 <= i < |fields| ==> NoComma(fields[i])
    ensures Split(Join(fields)) == fields
  {
    if |fields| == 1 {
      SplitLast(fields[0]);
    } else {
      SplitJoin(fields[1..]);
      SplitFirst(fields[0], Join(fields[1..]));
    }
  }

  lemma {:induction false} JoinAppend(a: seq<string>, b: seq<string>)
    requires |a| > 0 && |b| > 0
    ensures Join(a + b) == Join(a) + "," + Join(b)
  {
    if |a| == 1 {
      assert (a + b)[1..] == b;
    } else {
      JoinAppend(a[1..], b);
      assert (a + b)[1..] == a[1..] + b;
    }
  }
}
