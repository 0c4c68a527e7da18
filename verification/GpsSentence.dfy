/**
 do_geo_fix: a position as an NMEA 0183 GGA sentence.  An angle is printed as degrees, whole minutes and
 ten-thousandths of a minute, each cut off (not rounded) from what the previous step left over.
 Angles are exact reals here.
 */
module GpsSentence {
  import opened Wrappers
  import opened Text

  // ----- angles -----

  datatype Angle = Angle(negative: bool, deg: nat, min: nat, frac: nat)
  {
    predicate Normal() {
      min < 60 && frac < 10000
    }

    /** In ten-thousandths of a minute. */
    function Units(): nat {
      deg * 600000 + min * 10000 + frac
    }

    function Degrees(): real {
      (if negative then -1.0 else 1.0) * (Units() as real / 600000.0)
    }
  }

  function Abs(v: real): real {
    if v < 0.0 then -v else v
  }

  /** The casts and multiplications of do_geo_fix. */
  function Encode(v: real): (a: Angle) {
    var val := Abs(v);
    var deg := val.Floor;
    var val1 := 60.0 * (val - deg as real);
    var min := val1.Floor;
    var val2 := 10000.0 * (val1 - min as real);
    assert 0.0 <= val1 < 60.0 && 0.0 <= val2 < 10000.0;
    Angle(v < 0.0, deg, min, val2.Floor)
  }

  lemma FloorUnique(x: real, n: int)
    requires n as real <= x < n as real + 1.0
    ensures x.Floor == n
  {
  }

  /** The three truncations are one: the angle in ten-thousandths of a minute, cut off. */
  lemma NestedTruncationsAreOne(v: real)
    ensures Encode(v).Normal() && Encode(v).Units() == (600000.0 * Abs(v)).Floor
  {
    var val := Abs(v);
    var deg := val.Floor;
    var val1 := 60.0 * (val - deg as real);
    var min := val1.Floor;
    var val2 := 10000.0 * (val1 - min as real);
    var frac := val2.Floor;
    assert 600000.0 * val == 600000.0 * deg as real + 10000.0 * min as real + val2;
    FloorUnique(600000.0 * val, deg * 600000 + min * 10000 + frac);
  }

  /** The printed angle never exceeds the true one and is less than 1/600000 degree short of it. */
  lemma EncodedAngleIsClose(v: real)
    ensures var d := Abs(Encode(v).Degrees());
            d <= Abs(v) < d + 1.0 / 600000.0
  {
    NestedTruncationsAreOne(v);
    var u := Encode(v).Units();
    assert u as real <= 600000.0 * Abs(v) < u as real + 1.0;
    assert Abs(Encode(v).Degrees()) == u as real / 600000.0;
  }

  lemma SameUnits(a: Angle, b: Angle)
    requires a.Normal() && b.Normal() && a.Units() == b.Units()
    ensures a.deg == b.deg && a.min == b.min && a.frac == b.frac
  {
    assert a.deg == a.Units() / 600000 && b.deg == b.Units() / 600000;
  }

  /**
   Encoding a printed angle again gives the same angle, except that a negative angle so small that it prints
   as zero comes back in the other hemisphere.
   */
  lemma ReencodeIffNotNegativeZero(a: Angle)
    requires a.Normal()
    ensures Encode(a.Degrees()) == a <==> !(a.negative && a.Units() == 0)
  {
    var v := a.Degrees();
    NestedTruncationsAreOne(v);
    assert 600000.0 * Abs(v) == a.Units() as real;
    SameUnits(Encode(v), a);
    assert v < 0.0 <==> a.negative && a.Units() != 0;
  }

  // ----- text -----

  /** printf("%02d") and "%04d" of a natural number. */
  function Padded(width: nat, n: nat): (s: string)
    ensures AllDigits(10, s) && |s| >= width
  {
    Zeros(width - |NatText(10, n)|) + NatText(10, n)
  }

  function Zeros(n: int): (s: string)
    ensures |s| == if n < 0 then 0 else n
    ensures forall i :: 0 <= i < |s| ==> s[i] == '0'
  {
    if n <= 0 then "" else "0" + Zeros(n - 1)
  }

  lemma {:induction false} LeadingZero(s: string)
    requires AllDigits(10, s)
    ensures AllDigits(10, "0" + s) && NatValue(10, "0" + s) == NatValue(10, s)
  {
    var z := "0" + s;
    if s == "" {
      assert z[..|z| - 1] == "";
    } else {
      LeadingZero(s[..|s| - 1]);
      assert z[..|z| - 1] == "0" + s[..|s| - 1];
    }
  }

  lemma {:induction false} ZerosValue(n: int, s: string)
    requires AllDigits(10, s)
    ensures AllDigits(10, Zeros(n) + s) && NatValue(10, Zeros(n) + s) == NatValue(10, s)
    decreases if n < 0 then 0 else n
  {
    if n <= 0 {
      assert Zeros(n) + s == s;
    } else {
      ZerosValue(n - 1, s);
      LeadingZero(Zeros(n - 1) + s);
      assert Zeros(n) + s == "0" + (Zeros(n - 1) + s);
    }
  }

  lemma PaddedValue(width: nat, n: nat)
    ensures NatValue(10, Padded(width, n)) == n
  {
    ZerosValue(width - |NatText(10, n)|, NatText(10, n));
    NatTextValue(10, n);
  }

  lemma PaddedWidth(width: nat, n: nat)
    requires (width == 2 && n < 100) || (width == 4 && n < 10000)
    ensures |Padded(width, n)| == width
  {
    assert n < 10 ==> |NatText(10, n)| == 1;
    assert n < 100 ==> |NatText(10, n / 10)| == 1;
    if n >= 100 {
      assert |NatText(10, n / 100)| <= 2;
    }
  }

  /** "%02d%02d.%04d" */
  function AngleText(a: Angle): string {
    Padded(2, a.deg) + Padded(2, a.min) + "." + Padded(4, a.frac)
  }

  /** Reads an angle field: four digits after the point, two for the minutes before it, the rest degrees. */
  function ParseAngle(s: string, negative: bool): Option<Angle> {
    if |s| < 8 then None
    else
      var p := |s| - 5;
      if s[p] != '.' || !AllDigits(10, s[..p]) || !AllDigits(10, s[p + 1..]) then None
      else
        Some(Angle(negative, NatValue(10, s[..p - 2]), NatValue(10, s[p - 2..p]), NatValue(10, s[p + 1..])))
  }

  /** The printed field gives the angle back, however many digits the degrees take. */
  lemma AngleTextDecodes(a: Angle)
    requires a.Normal()
    ensures ParseAngle(AngleText(a), a.negative) == Some(a)
  {
    hide Padded, NatValue;
    PaddedWidth(2, a.min);
    PaddedWidth(4, a.frac);
    PaddedValue(2, a.deg);
    PaddedValue(2, a.min);
    PaddedValue(4, a.frac);
    var d, m, f := Padded(2, a.deg), Padded(2, a.min), Padded(4, a.frac);
    var s := AngleText(a);
    var p := |s| - 5;
    assert s == d + m + "." + f;
    assert p == |d| + 2;
    assert s[..p] == d + m && s[p] == '.' && s[p + 1..] == f;
    assert s[..p - 2] == d && s[p - 2..p] == m;
  }

  // ----- the sentence -----

  datatype Time = Time(hh: nat, mm: nat, ss: nat)

  /** Seconds since the epoch as time of day. */
  function TimeOfDay(sec: nat): Time {
    Time(sec / 3600 % 24, sec / 60 % 60, sec % 60)
  }

  lemma DivideInSteps(n: nat, a: nat, b: nat)
    requires a > 0 && b > 0 && a * b > 0
    ensures n / (a * b) == n / a / b
    ensures n % (a * b) == n / a % b * a + n % a
  {
    var q, r := n / a / b, n / a % b * a + n % a;
    var m := n / a;
    assert m % b * a <= (b - 1) * a;
    assert r < a * b;
    assert n == m * a + n % a && m == q * b + m % b;
    assert n == q * (a * b) + r by {
      assert (q * b + m % b) * a == q * b * a + m % b * a;
      assert q * b * a == q * (a * b);
    }
    DivModUnique(n, a * b, q, r);
  }

  lemma DivModUnique(n: nat, d: nat, q: int, r: nat)
    requires d > 0 && n == q * d + r && r < d
    ensures n / d == q && n % d == r
  {
    var q', r' := n / d, n % d;
    assert (q - q') * d == r' - r;
    assert 0 - d < (q - q') * d < d;
    SmallMultiple(q - q', d);
  }

  lemma SmallMultiple(k: int, d: nat)
    requires 0 - d < k * d < d
    ensures k == 0
  {
    assert k >= 1 ==> k * d >= d;
    assert k <= -1 ==> -k * d >= d;
  }

  /** The three parts are in range and together are the second of the day. */
  lemma TimeOfDayIsSecondsOfDay(sec: nat)
    ensures var t := TimeOfDay(sec);
            && t.hh < 24 && t.mm < 60 && t.ss < 60
            && t.hh * 3600 + t.mm * 60 + t.ss == sec % 86400
  {
    DivideInSteps(sec, 60, 60);
    DivideInSteps(sec, 3600, 24);
  }

  /** The checked arguments: longitude, latitude, altitude if given, number of satellites. */
  datatype Fix = Fix(longitude: real, latitude: real, altitude: Option<real>, satellites: int)

  datatype Refusal = NotEnough | BadSatellites

  datatype Checked = Accepted(fix: Fix) | Refused(why: Refusal)

  /** The tests on 0 to 5 numeric arguments: longitude, latitude, altitude, satellites, satellites again. */
  function Check(params: seq<real>): (r: Checked)
    requires |params| <= 5
    ensures r.Accepted? ==> 1 <= r.fix.satellites <= 12
  {
    if |params| < 2 then Refused(NotEnough)
    else
      var altitude := if |params| >= 3 then Some(params[2]) else None;
      if |params| < 4 then Accepted(Fix(params[0], params[1], altitude, 1))
      else
        var p := params[if |params| == 5 then 4 else 3];
        var n := if p < 0.0 then -((-p).Floor) else p.Floor;
        if n as real != p || n < 1 || n > 12 then Refused(BadSatellites)
        else Accepted(Fix(params[0], params[1], altitude, n))
  }

  predicate SatelliteCount(p: real) {
    p == p.Floor as real && 1.0 <= p <= 12.0
  }

  /** Accepted are exactly two or more numbers whose satellite count, if present, is whole and from 1 to 12. */
  lemma AcceptedExactly(params: seq<real>)
    requires |params| <= 5
    ensures Check(params).Accepted? <==> |params| >= 2 && (|params| >= 4 ==> SatelliteCount(params[|params| - 1]))
    ensures Check(params).Accepted? && |params| >= 4 ==>
              Check(params).fix.satellites as real == params[|params| - 1]
  {
    if |params| >= 4 {
      var p := params[|params| - 1];
      if Check(params).Accepted? {
        FloorUnique(p, Check(params).fix.satellites);
      }
    }
  }

  function TimeText(t: Time): string {
    Padded(2, t.hh) + Padded(2, t.mm) + Padded(2, t.ss)
  }

  function AngleFields(a: Angle, positive: char, negative: char): seq<string> {
    [AngleText(a), [if a.negative then negative else positive]]
  }

  function AltitudeFields(fix: Fix, altitude: string): seq<string> {
    if fix.altitude.Some? then [altitude, "M", "0.", "M"] else ["", "", "", ""]
  }

  /** The fields of a GGA sentence; `altitude` is the "%.1g" text of the altitude, if there is one. */
  function Fields(now: Time, fix: Fix, altitude: string): (f: seq<string>)
    requires fix.satellites >= 0
    ensures |f| == 16
  {
    ["$GPGGA", TimeText(now)]
    + AngleFields(Encode(fix.latitude), 'N', 'S')
    + AngleFields(Encode(fix.longitude), 'E', 'W')
    + ["1", Padded(2, fix.satellites), ""]
    + AltitudeFields(fix, altitude)
    + ["", "", "*47\n"]
  }

  lemma NoCommaInText(a: Angle, t: Time, n: nat)
    ensures NoComma(AngleText(a)) && NoComma(TimeText(t)) && NoComma(Padded(2, n))
  {
    DigitsHaveNoComma(Padded(2, a.deg));
    DigitsHaveNoComma(Padded(2, a.min));
    DigitsHaveNoComma(Padded(4, a.frac));
    DigitsHaveNoComma(Padded(2, t.hh));
    DigitsHaveNoComma(Padded(2, t.mm));
    DigitsHaveNoComma(Padded(2, t.ss));
    DigitsHaveNoComma(Padded(2, n));
    hide Padded;
  }

  lemma DigitsHaveNoComma(s: string)
    requires AllDigits(10, s)
    ensures NoComma(s)
  {
  }

  lemma FieldsHaveNoComma(now: Time, fix: Fix, altitude: string)
    requires fix.satellites >= 0 && NoComma(altitude)
    ensures forall i :: 0 <= i < |Fields(now, fix, altitude)| ==> NoComma(Fields(now, fix, altitude)[i])
  {
    hide AngleText, TimeText, Padded, Encode;
    NoCommaInText(Encode(fix.latitude), now, fix.satellites);
    NoCommaInText(Encode(fix.longitude), now, fix.satellites);
  }

  lemma JoinOne(s: string, f: seq<string>, a: string)
    requires |f| > 0 && s == Join(f)
    ensures s + "," + a == Join(f + [a])
  {
    JoinAppend(f, [a]);
  }

  lemma JoinTwo(s: string, f: seq<string>, a: string, b: string)
    requires |f| > 0 && s == Join(f)
    ensures s + "," + a + "," + b == Join(f + [a, b])
  {
    JoinOne(s, f, a);
    JoinOne(s + "," + a, f + [a], b);
    assert f + [a] + [b] == f + [a, b];
    hide Join;
  }

  lemma JoinThree(s: string, f: seq<string>, a: string, b: string, c: string)
    requires |f| > 0 && s == Join(f)
    ensures s + "," + a + "," + b + "," + c == Join(f + [a, b, c])
  {
    hide Join;
    JoinTwo(s, f, a, b);
    JoinOne(s + "," + a + "," + b, f + [a, b], c);
    assert f + [a, b] + [c] == f + [a, b, c];
  }

  lemma JoinFour(s: string, f: seq<string>, a: string, b: string, c: string, d: string)
    requires |f| > 0 && s == Join(f)
    ensures s + "," + a + "," + b + "," + c + "," + d == Join(f + [a, b, c, d])
  {
    hide Join;
    JoinThree(s, f, a, b, c);
    JoinOne(s + "," + a + "," + b + "," + c, f + [a, b, c], d);
    assert f + [a, b, c] + [d] == f + [a, b, c, d];
  }

  lemma JoinStart(t: string)
    ensures "$GPGGA," + t == Join(["$GPGGA", t])
  {
    JoinOne("$GPGGA", ["$GPGGA"], t);
    assert ["$GPGGA"] + [t] == ["$GPGGA", t];
    assert "$GPGGA" + "," == "$GPGGA,";
  }

  /** ",1," satellites "," */
  method AddSatellites(s: string, n: nat, ghost f: seq<string>) returns (r: string)
    requires |f| > 0 && s == Join(f)
    ensures r == Join(f + ["1", Padded(2, n), ""])
  {
    hide Join, Padded;
    r := s + ",1," + Padded(2, n) + ",";
    JoinThree(s, f, "1", Padded(2, n), "");
    assert s + "," + "1" + "," == s + ",1,";
    assert r == s + "," + "1" + "," + Padded(2, n) + "," + "";
  }

  method AddAltitude(s: string, fix: Fix, altitude: string, ghost f: seq<string>) returns (r: string)
    requires |f| > 0 && s == Join(f)
    ensures r == Join(f + AltitudeFields(fix, altitude))
  {
    hide Join;
    if fix.altitude.Some? {
      r := s + "," + altitude + ",M,0.,M";
      JoinFour(s, f, altitude, "M", "0.", "M");
      assert "," + "M" + "," + "0." + "," + "M" == ",M,0.,M";
      assert r == s + "," + altitude + "," + "M" + "," + "0." + "," + "M";
    } else {
      r := s + ",,,,";
      JoinFour(s, f, "", "", "", "");
      assert r == s + "," + "" + "," + "" + "," + "" + "," + "";
    }
  }

  method AddRest(s: string, ghost f: seq<string>) returns (r: string)
    requires |f| > 0 && s == Join(f)
    ensures r == Join(f + ["", "", "*47\n"])
  {
    hide Join;
    r := s + ",,,*47" + "\n";
    JoinThree(s, f, "", "", "*47\n");
    assert "," + "" + "," + "" + "," + "*47\n" == ",,,*47" + "\n";
    assert r == s + "," + "" + "," + "" + "," + "*47\n";
  }

  /** Builds the sentence piece by piece, the way do_geo_fix appends to its buffer. */
  method Sentence(now: Time, fix: Fix, altitude: string) returns (s: string)
    requires fix.satellites >= 0
    ensures s == Join(Fields(now, fix, altitude))
  {
    hide AngleText, TimeText, Padded, Encode, Join, AltitudeFields;
    var lat, long := Encode(fix.latitude), Encode(fix.longitude);
    ghost var f := ["$GPGGA", TimeText(now)];
    s := "$GPGGA," + TimeText(now);
    JoinStart(TimeText(now));
    JoinTwo(s, f, AngleText(lat), [if lat.negative then 'S' else 'N']);
    s := s + "," + AngleText(lat) + "," + [if lat.negative then 'S' else 'N'];
    f := f + AngleFields(lat, 'N', 'S');
    JoinTwo(s, f, AngleText(long), [if long.negative then 'W' else 'E']);
    s := s + "," + AngleText(long) + "," + [if long.negative then 'W' else 'E'];
    f := f + AngleFields(long, 'E', 'W');
    s := AddSatellites(s, fix.satellites, f);
    f := f + ["1", Padded(2, fix.satellites), ""];
    s := AddAltitude(s, fix, altitude, f);
    f := f + AltitudeFields(fix, altitude);
    s := AddRest(s, f);
  }

  lemma FieldsInOrder(now: Time, fix: Fix, altitude: string)
    requires fix.satellites >= 0
    ensures var f, lat, long := Fields(now, fix, altitude), Encode(fix.latitude), Encode(fix.longitude);
            && f[1] == TimeText(now)
            && f[2] == AngleText(lat) && f[3] == [if lat.negative then 'S' else 'N']
            && f[4] == AngleText(long) && f[5] == [if long.negative then 'W' else 'E']
            && f[7] == Padded(2, fix.satellites)
  {
    hide AngleText, TimeText, Padded, Encode;
  }

  lemma AngleReadsBack(v: real, hemisphere: string, positive: char, negative: char)
    requires positive != negative
    requires hemisphere == [if Encode(v).negative then negative else positive]
    ensures ParseAngle(AngleText(Encode(v)), hemisphere == [negative]) == Some(Encode(v))
  {
    hide AngleText, ParseAngle, Encode;
    NestedTruncationsAreOne(v);
    AngleTextDecodes(Encode(v));
    assert hemisphere[0] == negative <==> Encode(v).negative;
  }

  /**
   The sentence of a fix can be read back: its fields give the time of day, both angles with hemisphere, and
   the number of satellites.
   */
  lemma SentenceReadsBack(now: Time, fix: Fix, altitude: string)
    requires fix.satellites >= 0 && NoComma(altitude)
    ensures var f := Split(Join(Fields(now, fix, altitude)));
            && |f| == 16
            && f[1] == TimeText(now)
            && ParseAngle(f[2], f[3] == "S") == Some(Encode(fix.latitude))
            && ParseAngle(f[4], f[5] == "W") == Some(Encode(fix.longitude))
            && AllDigits(10, f[7]) && NatValue(10, f[7]) == fix.satellites
  {
    hide AngleText, TimeText, Padded, Encode, ParseAngle, Fields, Split, Join, NatValue;
    FieldsHaveNoComma(now, fix, altitude);
    SplitJoin(Fields(now, fix, altitude));
    FieldsInOrder(now, fix, altitude);
    var f := Fields(now, fix, altitude);
    AngleReadsBack(fix.latitude, f[3], 'N', 'S');
    AngleReadsBack(fix.longitude, f[5], 'E', 'W');
    PaddedValue(2, fix.satellites);
  }
}
