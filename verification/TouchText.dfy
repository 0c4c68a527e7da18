/**
 The text side of VirtualInputReceiver: cutting a message into commands and reading their numbers.

 onInputMessage calls substr(begin, end), so the second argument, meant as an end position, is used as a
 length: every piece after the first carries text of later lines.  sscanf skips newlines like any other
 white space, so a line with too few numbers reads on into that extra text.
 */
module TouchText {
  import opened Wrappers
  import opened Text
  import opened TouchEvents
  import opened TouchReceiver

  const MAX_POSITION := 32767
  const MAX_PRESSURE := 255

  // ----- sscanf("%d ...") -----

  predicate IsSpace(c: char) {
    c == ' ' || ('\t' <= c && c <= '\r')
  }

  /** One %d: a number and what follows it, a mismatch, or the end of the text before any digit. */
  datatype Scan = Number(value: int, rest: string) | Mismatch | Ended

  /** The digits of one %d, its sign already read. */
  function ScanDigits(s: string): Scan {
    var n := DigitRun(10, s);
    if n == 0 then Mismatch else Number(NatValue(10, s[..n]), s[n..])
  }

  function Negated(scan: Scan): Scan {
    if scan.Number? then Number(-scan.value, scan.rest) else scan
  }

  function ScanInt(s: string): Scan
    decreases |s|
  {
    if s == "" then Ended
    else if IsSpace(s[0]) then ScanInt(s[1..])
    else if s[0] == '-' then Negated(ScanDigits(s[1..]))
    else if s[0] == '+' then ScanDigits(s[1..])
    else ScanDigits(s)
  }

  /** The numbers read by up to n conversions; starved if the text ended while a number was still wanted. */
  datatype Scanned = Scanned(values: seq<int>, starved: bool)

  function ScanInts(s: string, n: nat): Scanned
    decreases n
  {
    if n == 0 then Scanned([], false)
    else
      match ScanInt(s)
      case Ended => Scanned([], true)
      case Mismatch => Scanned([], false)
      case Number(v, rest) =>
        var more := ScanInts(rest, n - 1);
        Scanned([v] + more.values, more.starved)
  }

  /** Values in a longer text that starts with s and goes on with a newline. */
  predicate Continues(extra: string) {
    extra == "" || extra[0] == '\n'
  }

  lemma ScanDigitsStable(s: string, extra: string)
    requires Continues(extra)
    ensures ScanDigits(s).Mismatch? ==> ScanDigits(s + extra).Mismatch?
    ensures ScanDigits(s).Number? ==> ScanDigits(s + extra) == Number(ScanDigits(s).value, ScanDigits(s).rest + extra)
  {
    var n := DigitRun(10, s);
    assert (s + extra)[..n] == s[..n];
    DigitRunUnique(10, s + extra, n);
    assert (s + extra)[n..] == s[n..] + extra;
  }

  lemma {:induction false} ScanIntStable(s: string, extra: string)
    requires Continues(extra)
    ensures ScanInt(s).Mismatch? ==> ScanInt(s + extra).Mismatch?
    ensures ScanInt(s).Number? ==> ScanInt(s + extra) == Number(ScanInt(s).value, ScanInt(s).rest + extra)
    decreases |s|
  {
    hide ScanDigits;
    if s != "" {
      assert (s + extra)[0] == s[0];
      assert (s + extra)[1..] == s[1..] + extra;
      if IsSpace(s[0]) {
        ScanIntStable(s[1..], extra);
      } else {
        ScanDigitsStable(s, extra);
        ScanDigitsStable(s[1..], extra);
      }
    }
  }

  lemma {:induction false} ScanIntsStable(s: string, n: nat, extra: string)
    requires Continues(extra) && !ScanInts(s, n).starved
    ensures ScanInts(s + extra, n) == ScanInts(s, n)
    decreases n
  {
    hide ScanInt;
    if n > 0 {
      ScanIntStable(s, extra);
      if ScanInt(s).Number? {
        ScanIntsStable(ScanInt(s).rest, n - 1, extra);
      }
    }
  }

  lemma {:induction false} EndedReadsOn(s: string, extra: string)
    requires ScanInt(s).Ended?
    ensures ScanInt(s + extra) == ScanInt(extra)
    decreases |s|
  {
    if s == "" {
      assert s + extra == extra;
    } else {
      EndedReadsOn(s[1..], extra);
      assert (s + extra)[1..] == s[1..] + extra;
    }
  }

  /** A starved line goes on with the numbers of the text after it. */
  lemma {:induction false} StarvedReadsOn(s: string, n: nat, extra: string)
    requires ScanInts(s, n).starved && Continues(extra)
    ensures |ScanInts(s, n).values| < n
    ensures ScanInts(s + extra, n).values
         == ScanInts(s, n).values + ScanInts(extra, n - |ScanInts(s, n).values|).values
    decreases n
  {
    hide ScanInt;
    match ScanInt(s)
    case Ended =>
      EndedReadsOn(s, extra);
    case Number(v, rest) =>
      ScanIntStable(s, extra);
      StarvedReadsOn(rest, n - 1, extra);
  }

  /** `n` lines with the number 1. */
  function Ones(n: nat): (s: string)
    ensures Continues(s)
  {
    if n == 0 then "" else "\n1" + Ones(n - 1)
  }

  function Repeated(x: int, n: nat): seq<int> {
    if n == 0 then [] else [x] + Repeated(x, n - 1)
  }

  lemma ScanFirstOne(rest: string)
    requires Continues(rest)
    ensures ScanInt("\n1" + rest) == Number(1, rest)
  {
    ScanNewlineOne();
    ScanIntStable("\n1", rest);
    hide ScanInt;
    assert "" + rest == rest;
  }

  lemma ScanNewlineOne()
    ensures ScanInt("\n1") == Number(1, "")
  {
    var digits := "1";
    assert digits[..0] == "" && digits[..1] == digits && digits[1..] == "";
    DigitRunUnique(10, digits, 1);
    assert "\n1"[1..] == digits;
    assert ScanInt("\n1") == ScanInt(digits);
  }

  lemma {:induction false} ScanOnes(n: nat)
    ensures ScanInts(Ones(n), n).values == Repeated(1, n)
  {
    hide ScanInt;
    if n > 0 {
      ScanFirstOne(Ones(n - 1));
      ScanOnes(n - 1);
    }
  }

  // ----- ProcessOneCommand -----

  /** How many numbers each command letter asks sscanf for. */
  function Wanted(letter: char): nat {
    match letter
    case 'd' => 4
    case 'm' => 4
    case 'u' => 1
    case 'w' => 1
    case _ => 0
  }

  /** The command letter; an empty string reads as its terminator. */
  function Letter(text: string): char {
    if text == "" then '\0' else text[0]
  }

  function Fields(text: string): Scanned {
    if text == "" then Scanned([], false) else ScanInts(text[1..], Wanted(text[0]))
  }

  predicate Starved(line: string) {
    Fields(line).starved
  }

  /** A number sscanf did not reach keeps its initial value. */
  function Field(values: seq<int>, i: nat, initial: int): int {
    if i < |values| then values[i] else initial
  }

  predicate GoodSlot(slot: int) {
    0 <= slot <= MAX_SLOT
  }

  predicate GoodTouch(slot: int, x: int, y: int, pressure: int) {
    GoodSlot(slot) && 0 <= x <= MAX_POSITION && 0 <= y <= MAX_POSITION && 0 <= pressure <= MAX_PRESSURE
  }

  /** The command a piece of text stands for, or None if its parameters are rejected. */
  function Decode(letter: char, v: seq<int>): Option<Command> {
    var slot := Field(v, 0, -1);
    match letter
    case 'c' => Some(Commit)
    case 'r' => Some(Reset)
    case 'd' =>
      var x, y, pressure := Field(v, 1, -1), Field(v, 2, -1), Field(v, 3, -1);
      if GoodTouch(slot, x, y, pressure) then Some(Down(slot, x, y, pressure)) else None
    case 'u' =>
      if GoodSlot(slot) then Some(Up(slot)) else None
    case 'm' =>
      var x, y, pressure := Field(v, 1, -1), Field(v, 2, -1), Field(v, 3, -1);
      if GoodTouch(slot, x, y, pressure) then Some(Move(slot, x, y, pressure)) else None
    case 'w' =>
      var ms := Field(v, 0, 0);
      if ms > 0 then Some(Wait(ms)) else None
    case _ => Some(Ignored)
  }

  function Parse(text: string): Option<Command> {
    Decode(Letter(text), Fields(text).values)
  }

  function Effect(text: string): Command {
    match Parse(text)
    case Some(c) => c
    case None => Ignored
  }

  /** How many numbers a line falls short of. */
  function Missing(line: string): nat
    requires Starved(line)
    ensures Missing(line) > 0
  {
    StarvedReadsOn(line[1..], Wanted(line[0]), "");
    Wanted(line[0]) - |Fields(line).values|
  }

  /** A starved line followed by enough ones reads them in the missing places. */
  lemma StarvedThenOnes(line: string)
    requires Starved(line)
    ensures |Fields(line).values| + Missing(line) == Wanted(line[0])
    ensures Fields(line + Ones(Missing(line))).values == Fields(line).values + Repeated(1, Missing(line))
    ensures Letter(line + Ones(Missing(line))) == line[0]
    ensures |Repeated(1, Missing(line))| == Missing(line)
    ensures forall i :: 0 <= i < Missing(line) ==> Repeated(1, Missing(line))[i] == 1
  {
    hide ScanInts, Ones, Repeated, Wanted;
    var missing := Missing(line);
    StarvedReadsOn(line[1..], Wanted(line[0]), Ones(missing));
    ScanOnes(missing);
    RepeatedIs(1, missing);
    assert (line + Ones(missing))[1..] == line[1..] + Ones(missing);
  }

  lemma {:induction false} RepeatedIs(x: int, n: nat)
    ensures |Repeated(x, n)| == n && forall i :: 0 <= i < n ==> Repeated(x, n)[i] == x
  {
    if n > 0 {
      RepeatedIs(x, n - 1);
    }
  }

  /**
   The numbers read from a line do not depend on the text after it exactly when the line is not starved:
   this is when passing an end position to substr adds nothing to what is read.
   */
  lemma ExtraTextHarmlessIffNotStarved(line: string)
    ensures (forall extra: string :: Continues(extra) ==> Fields(line + extra).values == Fields(line).values)
       <==> !Starved(line)
  {
    if Starved(line) {
      var missing := Missing(line);
      StarvedThenOnes(line);
      assert Fields(line + Ones(missing)).values != Fields(line).values;
    } else {
      forall extra: string | Continues(extra) ensures Fields(line + extra).values == Fields(line).values {
        if line == "" {
          if extra != "" { assert Wanted('\n') == 0; }
          assert line + extra == extra;
        } else {
          ScanIntsStable(line[1..], Wanted(line[0]), extra);
          assert (line + extra)[1..] == line[1..] + extra;
        }
      }
    }
  }

  /** A number of a down or move line that was read is already out of range. */
  predicate OutOfRange(letter: char, v: seq<int>) {
    && (letter == 'd' || letter == 'm')
    && ((|v| > 0 && !GoodSlot(v[0])) || (|v| > 1 && !(0 <= v[1] <= MAX_POSITION))
        || (|v| > 2 && !(0 <= v[2] <= MAX_POSITION)))
  }

  lemma StarvedIsRefused(line: string)
    requires Starved(line)
    ensures Parse(line) == None
  {
    var _ := Missing(line);
    hide ScanInts;
  }

  lemma MoreNumbersRefused(letter: char, v: seq<int>, w: seq<int>)
    requires OutOfRange(letter, v)
    ensures Decode(letter, v + w) == None
  {
    assert forall i :: 0 <= i < |v| ==> (v + w)[i] == v[i];
  }

  lemma DoomedStaysRefused(line: string, extra: string)
    requires Starved(line) && Continues(extra) && OutOfRange(line[0], Fields(line).values)
    ensures Parse(line + extra) == None
  {
    hide ScanInts, Decode, OutOfRange;
    StarvedReadsOn(line[1..], Wanted(line[0]), extra);
    assert (line + extra)[1..] == line[1..] + extra;
    var v := Fields(line).values;
    MoreNumbersRefused(line[0], v, ScanInts(extra, Wanted(line[0]) - |v|).values);
  }

  lemma StarvedCanBeFed(line: string)
    requires Starved(line) && !OutOfRange(line[0], Fields(line).values)
    ensures Parse(line + Ones(Missing(line))).Some?
  {
    StarvedThenOnes(line);
    hide ScanInts, Ones, Repeated, Missing;
  }

  /**
   When passing an end position to substr is harmless: the command a line stands for does not depend on the text
   after it exactly when the line is not starved, or is refused for a number it does have.
   */
  lemma ParseHarmlessIff(line: string)
    ensures (forall extra: string :: Continues(extra) ==> Parse(line + extra) == Parse(line))
       <==> !Starved(line) || OutOfRange(Letter(line), Fields(line).values)
  {
    if !Starved(line) {
      forall extra: string | Continues(extra) ensures Parse(line + extra) == Parse(line) {
        ParseStable(line, extra);
      }
    } else {
      StarvedIsRefused(line);
      if OutOfRange(line[0], Fields(line).values) {
        forall extra: string | Continues(extra) ensures Parse(line + extra) == Parse(line) {
          DoomedStaysRefused(line, extra);
        }
      } else {
        StarvedCanBeFed(line);
        assert Parse(line + Ones(Missing(line))) != Parse(line);
      }
    }
    hide Parse, Starved, Missing;
  }

  lemma ParseStable(line: string, extra: string)
    requires Continues(extra) && !Starved(line)
    ensures Parse(line + extra) == Parse(line)
  {
    ExtraTextHarmlessIffNotStarved(line);
    if line == "" {
      assert line + extra == extra;
    }
  }

  // ----- onInputMessage -----

  /** msg.find("\n", begin), |msg| standing for npos. */
  function FindNewline(msg: string, begin: nat): (end: nat)
    requires begin <= |msg|
    ensures begin <= end <= |msg|
    ensures end < |msg| ==> msg[end] == '\n'
    ensures forall i :: begin <= i < end ==> msg[i] != '\n'
    decreases |msg| - begin
  {
    if begin == |msg| || msg[begin] == '\n' then begin else FindNewline(msg, begin + 1)
  }

  /** msg.substr(begin, length) */
  function Substr(msg: string, begin: nat, length: nat): string
    requires begin <= |msg|
  {
    if begin + length <= |msg| then msg[begin..begin + length] else msg[begin..]
  }

  /** Where the next command starts: after the newline and one carriage return. */
  function NextBegin(msg: string, end: nat): (begin: nat)
    requires end < |msg|
    ensures end < begin <= |msg|
  {
    if end + 1 < |msg| && msg[end + 1] == '\r' then end + 2 else end + 1
  }

  /** The text really passed to ProcessOneCommand, from position begin on. */
  function Pieces(msg: string, begin: nat): seq<string>
    requires begin <= |msg|
    decreases |msg| - begin
  {
    var end := FindNewline(msg, begin);
    if end == |msg| then [] else [Substr(msg, begin, end)] + Pieces(msg, NextBegin(msg, end))
  }

  /** The lines of the message, each without its newline: what substr was meant to cut out. */
  function Lines(msg: string, begin: nat): seq<string>
    requires begin <= |msg|
    decreases |msg| - begin
  {
    var end := FindNewline(msg, begin);
    if end == |msg| then [] else [msg[begin..end]] + Lines(msg, NextBegin(msg, end))
  }

  function Effects(texts: seq<string>): (r: seq<Command>)
    ensures |r| == |texts|
    ensures forall i :: 0 <= i < |r| ==> r[i] == Effect(texts[i])
  {
    seq(|texts|, i requires 0 <= i < |texts| => Effect(texts[i]))
  }

  function CountNewlines(msg: string): nat {
    if msg == "" then 0 else CountNewlines(msg[..|msg| - 1]) + if msg[|msg| - 1] == '\n' then 1 else 0
  }

  lemma {:induction false} NoNewlines(msg: string, begin: nat, end: nat)
    requires begin <= end <= |msg|
    requires forall i :: begin <= i < end ==> msg[i] != '\n'
    ensures CountNewlines(msg[..end]) == CountNewlines(msg[..begin])
    decreases end
  {
    if begin < end {
      NoNewlines(msg, begin, end - 1);
      assert msg[..end][..end - 1] == msg[..end - 1];
    }
  }

  /** For every message the number of commands processed is its number of newlines. */
  lemma {:induction false} OneCommandPerNewline(msg: string, begin: nat)
    requires begin <= |msg|
    ensures |Pieces(msg, begin)| == |Lines(msg, begin)| == CountNewlines(msg) - CountNewlines(msg[..begin])
    decreases |msg| - begin
  {
    var end := FindNewline(msg, begin);
    NoNewlines(msg, begin, end);
    if end == |msg| {
      assert msg[..end] == msg;
    } else {
      var next := NextBegin(msg, end);
      assert msg[..end + 1][..end] == msg[..end];
      NoNewlines(msg, end + 1, next);
      OneCommandPerNewline(msg, next);
    }
  }

  lemma PieceStartsWithLine(msg: string, begin: nat)
    requires begin <= |msg| && FindNewline(msg, begin) < |msg|
    ensures var end := FindNewline(msg, begin);
            var line, piece := msg[begin..end], Substr(msg, begin, end);
            |line| <= |piece| && piece == line + piece[|line|..] && Continues(piece[|line|..])
  {
  }

  lemma FirstEffect(text: string, texts: seq<string>)
    ensures Effects([text] + texts) == [Effect(text)] + Effects(texts)
  {
  }

  /** If no line is starved, every command is read from its own line only, for any message. */
  lemma {:induction false} PiecesActAsLines(msg: string, begin: nat)
    requires begin <= |msg|
    requires forall line :: line in Lines(msg, begin) ==> !Starved(line)
    ensures Effects(Pieces(msg, begin)) == Effects(Lines(msg, begin))
    decreases |msg| - begin
  {
    var end := FindNewline(msg, begin);
    if end < |msg| {
      var line, piece, next := msg[begin..end], Substr(msg, begin, end), NextBegin(msg, end);
      var lines := Lines(msg, next);
      assert Lines(msg, begin) == [line] + lines;
      assert ([line] + lines)[0] == line;
      PieceStartsWithLine(msg, begin);
      ParseStable(line, piece[|line|..]);
      PiecesActAsLines(msg, next);
      FirstEffect(line, lines);
      FirstEffect(piece, Pieces(msg, next));
    }
  }

  // ----- printing commands and reading them back -----

  /** Commands the text protocol can express: those ProcessOneCommand accepts. */
  predicate Printable(c: Command) {
    match c
    case Down(slot, x, y, pressure) => GoodTouch(slot, x, y, pressure)
    case Move(slot, x, y, pressure) => GoodTouch(slot, x, y, pressure)
    case Up(slot) => GoodSlot(slot)
    case Wait(ms) => ms > 0
    case Ignored => false
    case _ => true
  }

  function PrintInts(v: seq<int>): string {
    if v == [] then "" else " " + Dec(v[0]) + PrintInts(v[1..])
  }

  function Values(c: Command): seq<int> {
    match c
    case Down(slot, x, y, pressure) => [slot, x, y, pressure]
    case Move(slot, x, y, pressure) => [slot, x, y, pressure]
    case Up(slot) => [slot]
    case Wait(ms) => [ms]
    case _ => []
  }

  function LetterOf(c: Command): char {
    match c
    case Down(_, _, _, _) => 'd'
    case Move(_, _, _, _) => 'm'
    case Up(_) => 'u'
    case Wait(_) => 'w'
    case Commit => 'c'
    case Reset => 'r'
    case Ignored => '#'
  }

  function Print(c: Command): string {
    [LetterOf(c)] + PrintInts(Values(c))
  }

  lemma {:induction false} PrintIntsNoNewline(v: seq<int>)
    ensures forall i :: 0 <= i < |PrintInts(v)| ==> PrintInts(v)[i] != '\n'
  {
    if v != [] {
      PrintIntsNoNewline(v[1..]);
      assert forall i :: 0 <= i < |Dec(v[0])| ==> Dec(v[0])[i] == '-' || IsDigit(10, Dec(v[0])[i]);
    }
  }

  lemma ScanNatText(n: nat, rest: string)
    requires rest != "" ==> !IsDigit(10, rest[0])
    ensures ScanDigits(NatText(10, n) + rest) == Number(n, rest)
  {
    var text := NatText(10, n);
    var s := text + rest;
    assert s[..|text|] == text && s[|text|..] == rest;
    DigitRunUnique(10, s, |text|);
    NatTextValue(10, n);
  }

  lemma ScanNumber(s: string, v: int, rest: string)
    requires s == Dec(v) + rest
    requires rest != "" ==> !IsDigit(10, rest[0])
    ensures ScanInt(s) == Number(v, rest)
  {
    hide ScanDigits, NatText;
    if v < 0 {
      ScanNatText(-v, rest);
      assert s[1..] == NatText(10, -v) + rest;
    } else {
      ScanNatText(v, rest);
      assert s[0] == NatText(10, v)[0] && IsDigit(10, s[0]);
    }
  }

  lemma ScanPrintedInt(s: string, v: int, rest: string)
    requires s == " " + Dec(v) + rest
    requires rest != "" ==> !IsDigit(10, rest[0])
    ensures ScanInt(s) == Number(v, rest)
  {
    hide ScanDigits, Dec;
    assert s[1..] == Dec(v) + rest;
    ScanNumber(s[1..], v, rest);
  }

  lemma ScanNothing()
    ensures ScanInt("") == Ended
  {
  }

  lemma PrintIntsStart(v: seq<int>)
    ensures PrintInts(v) != "" ==> PrintInts(v)[0] == ' '
  {
  }

  lemma {:induction false} ScanPrinted(v: seq<int>, n: nat)
    requires n >= |v|
    ensures ScanInts(PrintInts(v), n) == Scanned(v, n > |v|)
    decreases n
  {
    hide ScanInt, Dec;
    if v == [] {
      ScanNothing();
    } else {
      PrintIntsStart(v[1..]);
      ScanPrintedInt(PrintInts(v), v[0], PrintInts(v[1..]));
      ScanPrinted(v[1..], n - 1);
    }
  }

  lemma PrintedCommandParses(c: Command)
    requires Printable(c)
    ensures Parse(Print(c)) == Some(c) && Effect(Print(c)) == c && !Starved(Print(c))
  {
    ScanPrinted(Values(c), |Values(c)|);
    assert Print(c)[1..] == PrintInts(Values(c));
  }

  /** A message: each command on its own line, ended by a newline and, where asked, a carriage return. */
  function PrintAll(commands: seq<Command>, lfCr: seq<bool>): string
    requires |commands| == |lfCr|
  {
    if commands == [] then ""
    else Print(commands[0]) + (if lfCr[0] then "\n\r" else "\n") + PrintAll(commands[1..], lfCr[1..])
  }

  lemma PrintedStart(c: Command)
    ensures forall i :: 0 <= i < |Print(c)| ==> Print(c)[i] != '\n'
  {
    PrintIntsNoNewline(Values(c));
  }

  lemma PrintAllStart(commands: seq<Command>, lfCr: seq<bool>)
    requires |commands| == |lfCr|
    ensures PrintAll(commands, lfCr) != "" ==> PrintAll(commands, lfCr)[0] != '\r'
  {
  }

  function Printed(commands: seq<Command>): (r: seq<string>)
    ensures |r| == |commands|
    ensures forall i :: 0 <= i < |r| ==> r[i] == Print(commands[i])
  {
    seq(|commands|, i requires 0 <= i < |commands| => Print(commands[i]))
  }

  /** The first line of a text, found from any position. */
  lemma FirstLine(msg: string, done: string, line: string, ending: string, rest: string)
    requires msg == done + line + ending + rest
    requires forall i :: 0 <= i < |line| ==> line[i] != '\n'
    requires ending == "\n" || ending == "\n\r"
    requires rest != "" ==> rest[0] != '\r'
    ensures FindNewline(msg, |done|) == |done + line| < |msg|
    ensures msg[|done|..|done + line|] == line
    ensures NextBegin(msg, |done + line|) == |done + line + ending|
  {
    assert forall i :: |done| <= i < |done + line| ==> msg[i] == line[i - |done|];
    assert forall i :: 0 <= i < |ending| ==> msg[|done + line| + i] == ending[i];
    assert msg[|done + line| + 0] == ending[0] == '\n';
    assert forall i :: 0 <= i < |rest| ==> msg[|done + line + ending| + i] == rest[i];
  }

  lemma {:induction false} LinesOfPrinted(done: string, commands: seq<Command>, lfCr: seq<bool>)
    requires |commands| == |lfCr|
    ensures Lines(done + PrintAll(commands, lfCr), |done|) == Printed(commands)
    decreases |commands|
  {
    hide FindNewline, NextBegin, Print;
    var msg := done + PrintAll(commands, lfCr);
    if commands != [] {
      var line := Print(commands[0]);
      var ending := if lfCr[0] then "\n\r" else "\n";
      var rest := PrintAll(commands[1..], lfCr[1..]);
      assert msg == done + line + ending + rest;
      PrintedStart(commands[0]);
      PrintAllStart(commands[1..], lfCr[1..]);
      FirstLine(msg, done, line, ending, rest);
      LinesOfPrinted(done + line + ending, commands[1..], lfCr[1..]);
      assert Printed(commands) == [line] + Printed(commands[1..]);
    }
  }

  /**
   Command text round trip: a message printed from any list of commands makes the receiver execute exactly
   these commands in order, although every later substr runs past its line.
   */
  lemma PrintedMessageExecutes(commands: seq<Command>, lfCr: seq<bool>)
    requires |commands| == |lfCr|
    requires forall c :: c in commands ==> Printable(c)
    ensures Effects(Pieces(PrintAll(commands, lfCr), 0)) == commands
  {
    hide Effect, Starved, Print, PrintAll, Pieces, Lines;
    var msg := PrintAll(commands, lfCr);
    assert "" + msg == msg;
    LinesOfPrinted("", commands, lfCr);
    forall i | 0 <= i < |commands|
      ensures Effect(Print(commands[i])) == commands[i] && !Starved(Print(commands[i]))
    {
      PrintedCommandParses(commands[i]);
    }
    PiecesActAsLines(msg, 0);
  }

  /** The extra text does matter for a starved line: a down without its pressure takes the next line's 1. */
  lemma StarvedLineTakesNextLine(slot: int, x: int, y: int)
    requires GoodTouch(slot, x, y, 1)
    ensures Parse("d" + PrintInts([slot, x, y])) == None
    ensures Parse("d" + PrintInts([slot, x, y]) + "\n1") == Some(Down(slot, x, y, 1))
  {
    var s := PrintInts([slot, x, y]);
    assert ("d" + s)[1..] == s;
    assert ("d" + s + "\n1")[1..] == s + "\n1";
    ScanPrinted([slot, x, y], 4);
    StarvedReadsOn(s, 4, "\n1");
    ScanNewlineOne();
    assert ScanInts("\n1", 1).values == [1];
  }

  // ----- the methods -----

  /** Executes one piece of text.  Every string keeps all slot indices in bounds, slot 10 included. */
  method ProcessOneCommand(r: VirtualInputReceiver, cmd: string) returns (ok: bool)
    requires r.Valid()
    modifies r, r.mContacts
    ensures r.Valid()
    ensures ok == Parse(cmd).Some?
    ensures r.View() == Execute(old(r.View()), Effect(cmd))
  {
    var values := Fields(cmd).values;
    match Letter(cmd) {
      case 'c' =>
        r.SendCommit();
      case 'r' =>
        r.SendReset();
      case 'd' =>
        var slot, x, y, pressure := Field(values, 0, -1), Field(values, 1, -1), Field(values, 2, -1),
            Field(values, 3, -1);
        if slot < 0 || slot > MAX_SLOT || x < 0 || x > MAX_POSITION || y < 0 || y > MAX_POSITION
           || pressure < 0 || pressure > MAX_PRESSURE {
          return false;
        }
        var _ := r.SendDown(slot, x, y, pressure);
      case 'u' =>
        var slot := Field(values, 0, -1);
        if slot < 0 || slot > MAX_SLOT {
          return false;
        }
        var _ := r.SendUp(slot);
      case 'm' =>
        var slot, x, y, pressure := Field(values, 0, -1), Field(values, 1, -1), Field(values, 2, -1),
            Field(values, 3, -1);
        if slot < 0 || slot > MAX_SLOT || x < 0 || x > MAX_POSITION || y < 0 || y > MAX_POSITION
           || pressure < 0 || pressure > MAX_PRESSURE {
          return false;
        }
        var _ := r.SendMove(slot, x, y, pressure);
      case 'w' =>
        if Field(values, 0, 0) <= 0 {
          return false;
        }
      case _ =>
    }
    return true;
  }

  /** The state after the rest of a message, from position begin on. */
  function RunFrom(s: State, msg: string, begin: nat): State
    requires Shaped(s) && begin <= |msg|
  {
    Run(s, Effects(Pieces(msg, begin)))
  }

  lemma RunFromStep(s: State, msg: string, begin: nat)
    requires Shaped(s) && begin <= |msg|
    ensures var end := FindNewline(msg, begin);
            RunFrom(s, msg, begin) ==
            if end == |msg| then s
            else RunFrom(Execute(s, Effect(Substr(msg, begin, end))), msg, NextBegin(msg, end))
  {
    var end := FindNewline(msg, begin);
    if end < |msg| {
      var cmd := Substr(msg, begin, end);
      FirstEffect(cmd, Pieces(msg, NextBegin(msg, end)));
      RunAppend(s, [Effect(cmd)], Effects(Pieces(msg, NextBegin(msg, end))));
      assert Run(s, [Effect(cmd)]) == Execute(s, Effect(cmd));
    }
  }

  /** Cuts a message into pieces and executes each; it ends on every message. */
  method OnInputMessage(r: VirtualInputReceiver, msg: string)
    requires r.Valid()
    modifies r, r.mContacts
    ensures r.Valid()
    ensures r.View() == Run(old(r.View()), Effects(Pieces(msg, 0)))
  {
    hide Execute, Effect, Run, Effects, Pieces;
    var begin := 0;
    while true
      invariant begin <= |msg| && r.Valid()
      invariant RunFrom(r.View(), msg, begin) == RunFrom(old(r.View()), msg, 0)
      decreases |msg| - begin
    {
      RunFromStep(r.View(), msg, begin);
      var end := FindNewline(msg, begin);
      if end == |msg| {
        break;
      }
      var cmd := Substr(msg, begin, end);
      var _ := ProcessOneCommand(r, cmd);
      begin := end + 1;
      if begin < |msg| && msg[begin] == '\r' {
        begin := begin + 1;
      }
    }
  }
}
