/**
 Numbers and arrays in the log: printed with printf conversions and to_string, read with yaml-cpp's as<T>()
 and GetSequence.  as<T>() takes decimal, 0x and octal text, all of it, in the range of T; an unsigned T
 takes no minus sign (yaml-cpp 0.6.3 and later).
 */
module YmlScalars {
  import opened Wrappers
  import opened Sequences
  import opened Text

  // ----- one number -----

  function ReadDigits(s: string): Option<nat> {
    if |s| > 2 && s[0] == '0' && (s[1] == 'x' || s[1] == 'X') then
      if AllDigits(16, s[2..]) then Some(NatValue(16, s[2..])) else None
    else if |s| > 1 && s[0] == '0' then
      if AllDigits(8, s) then Some(NatValue(8, s)) else None
    else if s != "" && AllDigits(10, s) then Some(NatValue(10, s))
    else None
  }

  /** as<T>() for an integer type of values from lo up to hi; None is the thrown BadConversion. */
  function ReadInt(s: string, lo: int, hi: int): (r: Option<int>)
    requires lo <= 0 < hi
    ensures r.Some? ==> lo <= r.value < hi
  {
    var minus := s != "" && s[0] == '-';
    if minus && lo == 0 then None
    else
      var n :- ReadDigits(if minus || (s != "" && s[0] == '+') then s[1..] else s);
      var v: int := if minus then 0 - n else n;
      if lo <= v < hi then Some(v) else None
  }

  lemma ReadNatText(n: nat)
    ensures ReadDigits(NatText(10, n)) == Some(n)
  {
    NatTextValue(10, n);
  }

  /** "%d" and "%ld" read back as any integer type whose range has the value. */
  lemma ReadDec(n: int, lo: int, hi: int)
    requires lo <= 0 < hi
    ensures ReadInt(Dec(n), lo, hi) == if lo <= n < hi then Some(n) else None
  {
    ReadNatText(if n < 0 then -n else n);
    hide ReadDigits;
    if n < 0 {
      assert Dec(n)[1..] == NatText(10, -n);
    } else {
      assert IsDigit(10, Dec(n)[0]);
    }
  }

  /** "0x%X" */
  function HexText(n: nat): (s: string)
    ensures |s| > 2
  {
    "0x" + NatText(16, n)
  }

  lemma ReadHex(n: nat, lo: int, hi: int)
    requires lo <= 0 <= n < hi
    ensures ReadInt(HexText(n), lo, hi) == Some(n)
  {
    var s := HexText(n);
    NatTextValue(16, n);
    assert s[2..] == NatText(16, n);
  }

  // ----- arrays -----

  /** What intArrayToString writes: "[a, b, c]". */
  function ArrayText(a: seq<int>): (s: string)
    requires |a| > 0
    ensures |s| > 0
  {
    "[" + Join(Cells(a)) + "]"
  }

  /** The elements as they stand between the commas. */
  function Cells(a: seq<int>): (c: seq<string>)
    ensures |c| == |a|
    ensures forall i :: 0 <= i < |a| ==> c[i] == (if i == 0 then "" else " ") + Dec(a[i])
  {
    seq(|a|, i requires 0 <= i < |a| => (if i == 0 then "" else " ") + Dec(a[i]))
  }

  lemma CellsExtend(a: seq<int>, k: nat)
    requires 0 < k < |a|
    ensures Cells(a[..k + 1]) == Cells(a[..k]) + [" " + Dec(a[k])]
  {
    hide Dec;
    var x, y := Cells(a[..k + 1]), Cells(a[..k]) + [" " + Dec(a[k])];
    assert forall i :: 0 <= i < k ==> a[..k + 1][i] == a[..k][i];
    assert |x| == |y| && forall i :: 0 <= i < |x| ==> x[i] == y[i];
  }

  lemma JoinGrows(f: seq<string>, x: string)
    requires |f| > 0
    ensures Join(f + [" " + x]) == Join(f) + ", " + x
  {
    hide Join;
    JoinAppend(f, [" " + x]);
    JoinSingle(" " + x);
    BlankAfterComma(x);
    Assoc(Join(f), ",", " " + x);
    Assoc(Join(f), ", ", x);
  }

  lemma BlankAfterComma(x: string)
    ensures "," + (" " + x) == ", " + x
  {
  }

  method IntArrayToString(length: nat, intArray: seq<int>) returns (tmpString: string)
    requires 0 < length <= |intArray|
    ensures tmpString == ArrayText(intArray[..length])
  {
    hide Join, Cells, Dec;
    tmpString := "[";
    ghost var body := "";
    for i := 0 to length - 1
      invariant tmpString == "[" + body
      invariant body == if i == 0 then "" else Join(Cells(intArray[..i])) + ", "
    {
      Prepended("[", body, Dec(intArray[i]), ", ");
      body := body + Dec(intArray[i]) + ", ";
      tmpString := tmpString + Dec(intArray[i]) + ", ";
      NextElement(intArray, i);
    }
    NextElement(intArray, length - 1);
    Prepended("[", body, Dec(intArray[length - 1]), "]");
    Assoc("[", body + Dec(intArray[length - 1]), "]");
    tmpString := tmpString + Dec(intArray[length - 1]) + "]";
  }

  lemma Prepended(a: string, b: string, x: string, y: string)
    ensures a + b + x + y == a + (b + x + y)
  {
    Assoc(a, b, x);
    Assoc(a, b + x, y);
  }

  lemma NextElement(a: seq<int>, i: nat)
    requires i < |a|
    ensures (if i == 0 then "" else Join(Cells(a[..i])) + ", ") + Dec(a[i]) == Join(Cells(a[..i + 1]))
  {
    hide Join, Dec;
    if i == 0 {
      assert Cells(a[..1]) == ["" + Dec(a[0])];
      JoinSingle("" + Dec(a[0]));
    } else {
      CellsExtend(a, i);
      JoinGrows(Cells(a[..i]), Dec(a[i]));
    }
  }

  lemma JoinSingle(x: string)
    ensures Join([x]) == x
  {
  }

  predicate IsSequence(s: string) {
    |s| >= 2 && s[0] == '[' && s[|s| - 1] == ']'
  }

  function TrimLeft(s: string): string {
    if s != "" && s[0] == ' ' then TrimLeft(s[1..]) else s
  }

  function TrimRight(s: string): string {
    if s != "" && s[|s| - 1] == ' ' then TrimRight(s[..|s| - 1]) else s
  }

  /** The items of a flow sequence, blanks around them dropped. */
  function Items(s: string): seq<string>
    requires IsSequence(s)
  {
    var cells := Split(s[1..|s| - 1]);
    seq(|cells|, i requires 0 <= i < |cells| => TrimRight(TrimLeft(cells[i])))
  }

  /** Every item through as<T>(); None if one throws. */
  function ReadAll(items: seq<string>, lo: int, hi: int): (r: Option<seq<int>>)
    requires lo <= 0 < hi
    ensures r.Some? ==> |r.value| == |items|
    ensures r.Some? <==> forall i :: 0 <= i < |items| ==> ReadInt(items[i], lo, hi).Some?
    ensures r.Some? ==> forall i :: 0 <= i < |items| ==> ReadInt(items[i], lo, hi) == Some(r.value[i])
  {
    if items == [] then Some([])
    else
      var last := ReadInt(items[|items| - 1], lo, hi);
      var front := ReadAll(items[..|items| - 1], lo, hi);
      if last.Some? && front.Some? then Some(front.value + [last.value]) else None
  }

  datatype Filled = NotASequence | BadItem | Filled

  /**
   GetSequence: writes the items one by one to the front of the destination.  It does not look at the
   destination's size, so the caller must know that the document's sequence fits.
   */
  method GetSequence(node: string, dst: array<int>, lo: int, hi: int) returns (r: Filled)
    requires lo <= 0 < hi
    requires IsSequence(node) ==> |Items(node)| <= dst.Length
    modifies dst
    ensures r == if !IsSequence(node) then NotASequence
                 else if ReadAll(Items(node), lo, hi).None? then BadItem else Filled
    ensures r.NotASequence? ==> dst[..] == old(dst[..])
    ensures r.Filled? ==> dst[..] == ReadAll(Items(node), lo, hi).value + old(dst[|Items(node)|..])
  {
    hide Items;
    if !IsSequence(node) {
      return NotASequence;
    }
    var items := Items(node);
    var i := 0;
    while i < |items|
      invariant i <= |items|
      invariant forall k :: 0 <= k < i ==> ReadInt(items[k], lo, hi) == Some(dst[k])
      invariant dst[i..] == old(dst[i..])
    {
      var v := ReadInt(items[i], lo, hi);
      if v.None? {
        return BadItem;
      }
      dst[i] := v.value;
      i := i + 1;
    }
    return Filled;
  }

  lemma TrimCell(n: int, blank: string)
    requires blank == "" || blank == " "
    ensures TrimRight(TrimLeft(blank + Dec(n))) == Dec(n)
    ensures NoComma(blank + Dec(n))
  {
    var d := Dec(n);
    assert forall i :: 0 <= i < |d| ==> d[i] == '-' || IsDigit(10, d[i]);
    hide Dec;
    assert d[0] != ' ' && d[|d| - 1] != ' ';
    if blank == " " {
      assert (blank + d)[1..] == d;
    } else {
      assert blank + d == d;
    }
  }

  /** The items of a printed array are its elements' texts. */
  lemma ItemsOfArrayText(a: seq<int>)
    requires |a| > 0
    ensures IsSequence(ArrayText(a)) && |Items(ArrayText(a))| == |a|
    ensures forall i :: 0 <= i < |a| ==> Items(ArrayText(a))[i] == Dec(a[i])
  {
    hide Join, Split, Dec, TrimRight, TrimLeft;
    var s, cells := ArrayText(a), Cells(a);
    assert s[1..|s| - 1] == Join(cells);
    forall i | 0 <= i < |a|
      ensures NoComma(cells[i]) && TrimRight(TrimLeft(cells[i])) == Dec(a[i])
    {
      TrimCell(a[i], if i == 0 then "" else " ");
    }
    SplitJoin(cells);
  }

  /** Any non-empty array reads back: all elements, in order, exactly when each is in the range of T. */
  lemma ArrayReadsBack(a: seq<int>, lo: int, hi: int)
    requires |a| > 0 && lo <= 0 < hi
    ensures ReadAll(Items(ArrayText(a)), lo, hi)
         == if forall i :: 0 <= i < |a| ==> lo <= a[i] < hi then Some(a) else None
  {
    hide ArrayText, Items, Dec, ReadInt;
    ItemsOfArrayText(a);
    var items := Items(ArrayText(a));
    forall i | 0 <= i < |a|
      ensures ReadInt(items[i], lo, hi) == if lo <= a[i] < hi then Some(a[i]) else None
    {
      ReadDec(a[i], lo, hi);
    }
    var r := ReadAll(items, lo, hi);
    if r.Some? {
      assert r.value == a;
    }
  }
}
