/**
 * The GPRMC decoder of the speed display: NMEA 0183 "Recommended Minimum
 * Specific GNSS Data" sentences, already split on commas, become a fix
 * record holding time, validity, position, speed, course and magnetic
 * variation.
 */
module Showkts {
  import opened Wrappers
  import opened Strconv

  // ---------------------------------------------------------------------
  // Degree-minute coordinates
  // ---------------------------------------------------------------------

  /** The degrees part: everything up to two characters before the first '.'. */
  function DegreesPart(val: string): (deg: string)
    requires Index(val, '.') >= 2
  {
    val[..Index(val, '.') - 2]
  }

  /** The minutes part: the two characters before the first '.' and everything after them. */
  function MinutesPart(val: string): (min: string)
    requires Index(val, '.') >= 2
  {
    val[Index(val, '.') - 2..]
  }

  /** True when `DegmintoFloat` gets as far as reading the direction. */
  predicate DegMinParses(val: string) {
    Index(val, '.') >= 2 && ParseFloat(DegreesPart(val)).Some? && ParseFloat(MinutesPart(val)).Some?
  }

  predicate IsSouthOrWest(dir: string)
    requires |dir| > 0
  {
    dir[0] == 'S' || dir[0] == 'W'
  }

  /**
   * Signed decimal degrees of a degree-minute string. Malformed input gives
   * the sentinel 0. The direction is read only once both parts have parsed,
   * and then it must not be empty.
   */
  function DegmintoFloat(val: string, dir: string): (r: real)
    requires DegMinParses(val) ==> |dir| > 0
    // any failure, of the split or of either parse, gives the sentinel
    ensures !DegMinParses(val) ==> r == 0.0
    // otherwise degrees plus minutes over sixty, negated exactly for 'S' and 'W'
    ensures DegMinParses(val) ==>
      var v := ParseFloat(DegreesPart(val)).value + ParseFloat(MinutesPart(val)).value / 60.0;
      r == if IsSouthOrWest(dir) then -v else v
  {
    var p := Index(val, '.');
    if p < 2 then 0.0
    else
      match (ParseFloat(DegreesPart(val)), ParseFloat(MinutesPart(val)))
      case (Some(deg), Some(min)) =>
        var v := deg + min / 60.0;
        if dir[0] == 'S' || dir[0] == 'W' then -v else v
      case _ => 0.0
  }

  /** No '.' at all, or a first '.' at index 0 or 1, gives the sentinel. */
  lemma DegmintoFloatNoRoom(val: string, dir: string)
    requires '.' !in val || (|val| > 0 && val[0] == '.') || (|val| > 1 && val[1] == '.')
    ensures !DegMinParses(val)
    ensures DegmintoFloat(val, dir) == 0.0
  {
  }

  /** A first '.' at index 2 leaves the degrees part empty, which does not parse. */
  lemma DegmintoFloatNoDegrees(val: string, dir: string)
    requires |val| > 2 && val[0] != '.' && val[1] != '.' && val[2] == '.'
    ensures !DegMinParses(val)
    ensures DegmintoFloat(val, dir) == 0.0
  {
  }

  /** Two '.' anywhere in the value give the sentinel: the second one always lands in a part that must parse. */
  lemma DegmintoFloatTwoPoints(val: string, dir: string, i: nat, j: nat)
    requires i < j < |val| && val[i] == '.' && val[j] == '.'
    ensures !DegMinParses(val)
    ensures DegmintoFloat(val, dir) == 0.0
  {
  }

  /** At index `i`, a character that `ParseFloat` never accepts there: not a digit, not '.', and not a leading sign. */
  predicate ForeignAt(part: string, i: nat)
    requires i < |part|
  {
    !IsDigit(part[i]) && part[i] != '.' && !(i == 0 && IsSign(part[i]))
  }

  /** A foreign character in the degrees part or in the minutes part gives the sentinel. */
  lemma DegmintoFloatForeignCharacter(val: string, dir: string, i: nat)
    requires Index(val, '.') >= 2
    requires (i < |DegreesPart(val)| && ForeignAt(DegreesPart(val), i))
          || (i < |MinutesPart(val)| && ForeignAt(MinutesPart(val), i))
    ensures !DegMinParses(val)
    ensures DegmintoFloat(val, dir) == 0.0
  {
    if i < |DegreesPart(val)| && ForeignAt(DegreesPart(val), i) {
      assert ParseFloat(DegreesPart(val)).None?;
    } else {
      assert ParseFloat(MinutesPart(val)).None?;
    }
  }

  lemma DegmintoFloatForeignDegreesExample()
    ensures DegmintoFloat("4a07.038", "N") == 0.0
  {
    ForeignInDegrees("4a07.038", "N", 4, 1);
  }

  lemma DegmintoFloatForeignMinutesExample()
    ensures DegmintoFloat("4807.0x8", "N") == 0.0
  {
    ForeignInMinutes("4807.0x8", "N", 4, 6);
  }

  /** A foreign character at a known position before the minutes, with the first '.' at `p`. */
  lemma ForeignInDegrees(val: string, dir: string, p: nat, i: nat)
    requires 2 <= p < |val| && val[p] == '.' && forall k :: 0 <= k < p ==> val[k] != '.'
    requires 0 < i < p - 2 && !IsDigit(val[i])
    ensures !DegMinParses(val)
    ensures DegmintoFloat(val, dir) == 0.0
  {
    assert Index(val, '.') == p;
    var deg := DegreesPart(val);
    assert deg == val[..p - 2];
    assert ForeignAt(deg, i) by {
      assert deg[i] == val[i];
    }
    DegmintoFloatForeignCharacter(val, dir, i);
  }

  /** A foreign character at a known position after the first '.', which is at `p`. */
  lemma ForeignInMinutes(val: string, dir: string, p: nat, i: nat)
    requires 2 <= p < |val| && val[p] == '.' && forall k :: 0 <= k < p ==> val[k] != '.'
    requires p < i < |val| && !IsDigit(val[i]) && val[i] != '.'
    ensures !DegMinParses(val)
    ensures DegmintoFloat(val, dir) == 0.0
  {
    assert Index(val, '.') == p;
    var min, k := MinutesPart(val), i - (p - 2);
    assert min[k] == val[i];
    DegmintoFloatForeignCharacter(val, dir, k);
  }

  /** A value built from a degrees part, two minute characters, '.' and a fraction splits back into exactly those pieces. */
  lemma DegreesMinutesSplit(deg: string, mm: string, frac: string)
    requires '.' !in deg && |mm| == 2 && '.' !in mm
    ensures Index(deg + mm + "." + frac, '.') == |deg| + 2
    ensures DegreesPart(deg + mm + "." + frac) == deg
    ensures MinutesPart(deg + mm + "." + frac) == mm + "." + frac
  {
    var val := deg + mm + "." + frac;
    var k := |deg| + 2;
    assert val[k] == '.';
    assert val[..k] == deg + mm;
    var p := Index(val, '.');
    assert p == k;
    assert val[..k - 2] == deg;
    assert val[k - 2..] == mm + "." + frac;
  }

  /**
   * A well-formed value `DD..DMM.F..F` decodes to degrees plus minutes over
   * sixty, whatever the number of degree digits, negated exactly for 'S'
   * and 'W'.
   */
  lemma DegmintoFloatDigits(deg: string, mm: string, frac: string, dir: string)
    requires deg != [] && AllDigits(deg) && |mm| == 2 && AllDigits(mm) && AllDigits(frac)
    ensures DegMinParses(deg + mm + "." + frac)
    ensures |dir| > 0 ==>
      var v := DigitsValue(deg) as real + (DigitsValue(mm) as real + FractionValue(frac)) / 60.0;
      DegmintoFloat(deg + mm + "." + frac, dir) == if IsSouthOrWest(dir) then -v else v
  {
    assert '.' !in deg;
    assert '.' !in mm by {
      assert IsDigit(mm[0]) && IsDigit(mm[1]);
    }
    DegreesMinutesSplit(deg, mm, frac);
    ParseFloatDecimal(mm, frac);
  }

  /** The direction only flips the sign: 'S' and 'W' give the negation of 'N' and 'E'. */
  lemma DegmintoFloatHemisphere(val: string, dir: string, other: string)
    requires |dir| > 0 && |other| > 0 && IsSouthOrWest(dir) && !IsSouthOrWest(other)
    ensures DegmintoFloat(val, dir) == -DegmintoFloat(val, other)
  {
  }

  /** `DegmintoFloatDigits` with the digit values given, so that literals need not be evaluated. */
  lemma DegmintoFloatOf(val: string, deg: string, mm: string, frac: string, dir: string, d: nat, m: nat, f: real)
    requires deg != [] && AllDigits(deg) && |mm| == 2 && AllDigits(mm) && AllDigits(frac) && |dir| > 0
    requires val == deg + mm + "." + frac
    requires DigitsValue(deg) == d && DigitsValue(mm) == m && FractionValue(frac) == f
    ensures DegmintoFloat(val, dir) == if IsSouthOrWest(dir) then -(d as real + (m as real + f) / 60.0) else d as real + (m as real + f) / 60.0
  {
    DegmintoFloatDigits(deg, mm, frac, dir);
  }

  /** The latitude of the NMEA 0183 sample fix, 48 degrees 7.038 minutes. */
  lemma DegmintoFloatNorthExample()
    ensures DegmintoFloat("4807.038", "N") == 48.0 + 7.038 / 60.0
  {
    DigitsAre("48", 48);
    DigitsAre("07", 7);
    DigitsAre("038", 38);
    assert Pow10(3) == 1000;
    DegmintoFloatOf("4807.038", "48", "07", "038", "N", 48, 7, 0.038);
  }

  lemma DegmintoFloatSouthExample()
    ensures DegmintoFloat("4807.038", "S") == -(48.0 + 7.038 / 60.0)
  {
    DegmintoFloatNorthExample();
    DegmintoFloatHemisphere("4807.038", "S", "N");
  }

  /** A three-digit degrees part, as in a longitude: 11 degrees 31 minutes. */
  lemma DegmintoFloatEastExample()
    ensures DegmintoFloat("01131.000", "E") == 11.0 + 31.0 / 60.0
  {
    DigitsAre("011", 11);
    DigitsAre("31", 31);
    DigitsAre("000", 0);
    DegmintoFloatOf("01131.000", "011", "31", "000", "E", 11, 31, 0.0);
  }

  lemma DegmintoFloatShortExample()
    ensures DegmintoFloat("12.5", "N") == 0.0
  {
    DegmintoFloatNoDegrees("12.5", "N");
  }

  /** Evaluates `DigitsValue` on a short literal. */
  lemma DigitsAre(s: string, n: nat)
    requires 0 < |s| <= 3 && AllDigits(s)
    requires n == if |s| == 1 then DigitValue(s[0])
                 else if |s| == 2 then 10 * DigitValue(s[0]) + DigitValue(s[1])
                 else 100 * DigitValue(s[0]) + 10 * DigitValue(s[1]) + DigitValue(s[2])
    ensures DigitsValue(s) == n
  {
    var t := s[..|s| - 1];
    if |s| >= 2 {
      var u := t[..|t| - 1];
      if |s| == 3 {
        assert u[..0] == [];
        assert DigitsValue(u) == DigitValue(s[0]);
      } else {
        assert t[..0] == [];
      }
    } else {
      assert t == [];
    }
  }

  /**
   * `Point.FromGPS`: component 0 becomes the latitude and component 1 the
   * longitude, each decoded from its own value and direction. The source's
   * nil error result is always nil and is not modelled.
   */
  method FromGPS(p: array<real>, lat: string, latdir: string, lon: string, londir: string)
    requires p.Length == 2
    requires DegMinParses(lat) ==> |latdir| > 0
    requires DegMinParses(lon) ==> |londir| > 0
    modifies p
    ensures p[0] == DegmintoFloat(lat, latdir)
    ensures p[1] == DegmintoFloat(lon, londir)
  {
    p[0] := DegmintoFloat(lat, latdir);
    p[1] := DegmintoFloat(lon, londir);
  }

  // ---------------------------------------------------------------------
  // Time stamps
  // ---------------------------------------------------------------------

  /** A calendar date, as read from the injected clock. */
  datatype Date = Date(year: int, month: int, day: int)

  /** The raw components handed to `time.Date`, always in UTC. */
  datatype Timestamp = Timestamp(year: int, month: int, day: int, hour: int, minute: int, second: int, nanosecond: int)

  /** Go's zero `time.Time`: 1 January of year 1, midnight UTC. */
  const ZeroTime := Timestamp(1, 1, 1, 0, 0, 0, 0)

  /** `strconv.Atoi` with its error ignored: a failed parse yields 0. */
  function AtoiOrZero(s: string): (n: int)
    ensures Atoi(s).None? ==> n == 0
    ensures Atoi(s).Some? ==> n == Atoi(s).value
  {
    Atoi(s).GetOr(0)
  }

  /**
   * Rebuilds a UTC time stamp from `HHMMSS` and `DDMMYY`. A date field of
   * five characters or fewer is replaced by `today`, the clock's date.
   */
  function TimeFromGPS(gtime: string, date: string, today: Date): (t: Timestamp)
    requires |gtime| >= 6
    ensures t.nanosecond == 0
    ensures -9 <= t.hour < 100 && -9 <= t.minute < 100 && -9 <= t.second < 100
    ensures |date| > 5 ==> 1991 <= t.year < 2100 && -9 <= t.month < 100 && -9 <= t.day < 100
  {
    var (yr, mo, dy) :=
      if |date| > 5 then
        (AtoiOrZero(date[4..6]) + 2000, AtoiOrZero(date[2..4]), AtoiOrZero(date[0..2]))
      else
        (today.year, today.month, today.day);
    var hr := AtoiOrZero(gtime[0..2]);
    var mn := AtoiOrZero(gtime[2..4]);
    var sc := AtoiOrZero(gtime[4..6]);
    Timestamp(yr, mo, dy, hr, mn, sc, 0)
  }

  /** Zero-padded fields round-trip: `DDMMYY` gives year 2000 + YY, and `HHMMSS` the time of day. */
  lemma TimeFromGPSDated(h: nat, mi: nat, sec: nat, d: nat, mo: nat, y: nat, gtail: string, dtail: string, today: Date)
    requires h < 100 && mi < 100 && sec < 100 && d < 100 && mo < 100 && y < 100
    ensures TimeFromGPS(Pad2(h) + Pad2(mi) + Pad2(sec) + gtail, Pad2(d) + Pad2(mo) + Pad2(y) + dtail, today)
         == Timestamp(2000 + y, mo, d, h, mi, sec, 0)
  {
    var g := Pad2(h) + Pad2(mi) + Pad2(sec) + gtail;
    var dt := Pad2(d) + Pad2(mo) + Pad2(y) + dtail;
    assert g[0..2] == Pad2(h) && g[2..4] == Pad2(mi) && g[4..6] == Pad2(sec);
    assert dt[0..2] == Pad2(d) && dt[2..4] == Pad2(mo) && dt[4..6] == Pad2(y);
    AtoiPad2(h); AtoiPad2(mi); AtoiPad2(sec);
    AtoiPad2(d); AtoiPad2(mo); AtoiPad2(y);
  }

  /** Without a usable date the calendar date is the clock's, and the time of day is as with any date. */
  lemma TimeFromGPSUndated(gtime: string, date: string, today: Date, other: string, otherDay: Date)
    requires |gtime| >= 6 && |date| <= 5
    ensures var t := TimeFromGPS(gtime, date, today);
      t.year == today.year && t.month == today.month && t.day == today.day
    ensures var t, u := TimeFromGPS(gtime, date, today), TimeFromGPS(gtime, other, otherDay);
      t.hour == u.hour && t.minute == u.minute && t.second == u.second && t.nanosecond == u.nanosecond
  {
  }

  /** A pair that does not parse contributes 0; a pair that does parse contributes its value, whatever the other pairs hold. */
  lemma TimeFromGPSFailSoft(gtime: string, date: string, today: Date)
    requires |gtime| >= 6 && |date| > 5
    ensures Atoi(gtime[0..2]).None? ==> TimeFromGPS(gtime, date, today).hour == 0
    ensures Atoi(gtime[2..4]).None? ==> TimeFromGPS(gtime, date, today).minute == 0
    ensures Atoi(gtime[4..6]).None? ==> TimeFromGPS(gtime, date, today).second == 0
    ensures Atoi(date[0..2]).None? ==> TimeFromGPS(gtime, date, today).day == 0
    ensures Atoi(date[2..4]).None? ==> TimeFromGPS(gtime, date, today).month == 0
    ensures Atoi(date[4..6]).None? ==> TimeFromGPS(gtime, date, today).year == 2000
    ensures Atoi(gtime[0..2]).Some? ==> TimeFromGPS(gtime, date, today).hour == Atoi(gtime[0..2]).value
    ensures Atoi(gtime[2..4]).Some? ==> TimeFromGPS(gtime, date, today).minute == Atoi(gtime[2..4]).value
    ensures Atoi(gtime[4..6]).Some? ==> TimeFromGPS(gtime, date, today).second == Atoi(gtime[4..6]).value
    ensures Atoi(date[0..2]).Some? ==> TimeFromGPS(gtime, date, today).day == Atoi(date[0..2]).value
    ensures Atoi(date[2..4]).Some? ==> TimeFromGPS(gtime, date, today).month == Atoi(date[2..4]).value
    ensures Atoi(date[4..6]).Some? ==> TimeFromGPS(gtime, date, today).year == 2000 + Atoi(date[4..6]).value
  {
  }

  /** One spoiled pair costs only its own component; a signed pair counts with its sign. */
  lemma TimeFromGPSPartialExample(today: Date)
    ensures var t := TimeFromGPS("12ab19", "230394", today);
      t.hour == 12 && t.minute == 0 && t.second == 19
    ensures TimeFromGPS("-51234", "230394", today).hour == -5
  {
    var g, h, d := "12ab19", "-51234", "230394";
    assert g[0..2] == Pad2(12) && g[4..6] == Pad2(19);
    AtoiPad2(12);
    AtoiPad2(19);
    assert Atoi(g[2..4]).None? by {
      assert !IsDigit(g[2..4][0]) && !IsSign(g[2..4][0]);
    }
    assert h[0..2] == "-" + ['5'];
    AtoiSigned(['5']);
    TimeFromGPSFailSoft(g, d, today);
    TimeFromGPSFailSoft(h, d, today);
  }

  lemma TimeFromGPSExamples(today: Date)
    ensures TimeFromGPS("123519", "230394", today) == Timestamp(2094, 3, 23, 12, 35, 19, 0)
    ensures TimeFromGPS("123519", "", today) == Timestamp(today.year, today.month, today.day, 12, 35, 19, 0)
  {
    assert Pad2(12) + Pad2(35) + Pad2(19) + "" == "123519";
    assert Pad2(23) + Pad2(3) + Pad2(94) + "" == "230394";
    TimeFromGPSDated(12, 35, 19, 23, 3, 94, "", "", today);
    TimeFromGPSUndated("123519", "", today, "230394", today);
  }

  // ---------------------------------------------------------------------
  // GPRMC sentences
  // ---------------------------------------------------------------------

  /** The first field of every GPRMC record. */
  const Tag := "$GPRMC"

  /** The number of comma-separated fields of a GPRMC record, the tag included. */
  const FieldCount := 13

  datatype DecodeError =
    | NotGPRMC         // "Record is not a GPRMC record"
    | WrongFieldCount  // "Record does not have 13 fields"

  /** The structural check of `FromNMEA`: the tag first, then the count. */
  function CheckRecord(s: seq<string>): (e: Option<DecodeError>)
    requires |s| > 0
    ensures e == None <==> s[0] == Tag && |s| == FieldCount
    ensures s[0] != Tag ==> e == Some(NotGPRMC)
    ensures s[0] == Tag && |s| != FieldCount ==> e == Some(WrongFieldCount)
  {
    if s[0] != Tag then Some(NotGPRMC)
    else if |s| != FieldCount then Some(WrongFieldCount)
    else None
  }

  /** What a 13-field record must satisfy for decoding not to index past the end of a field. */
  predicate FieldsIndexable(s: seq<string>)
    requires |s| == FieldCount
  {
    && |s[1]| >= 6
    && |s[2]| > 0
    && (DegMinParses(s[3]) ==> |s[4]| > 0)
    && (DegMinParses(s[5]) ==> |s[6]| > 0)
    && (|s[11]| > 0 ==> |s[10]| > 0)
  }

  /** `strconv.ParseFloat` with its error ignored: a failed parse yields 0. */
  function FloatOrZero(s: string): (r: real)
    ensures ParseFloat(s).None? ==> r == 0.0
    ensures ParseFloat(s).Some? ==> r == ParseFloat(s).value
  {
    ParseFloat(s).GetOr(0.0)
  }

  /** The variation direction after decoding: as written, it is read from the variation field itself. */
  function EastWestAfter(s: seq<string>, previous: char): (c: char)
    requires |s| == FieldCount && (|s[11]| > 0 ==> |s[10]| > 0)
    // the hemisphere field only decides whether anything is read
    ensures |s[11]| == 0 ==> c == previous
    // what is read is the first character of the variation value
    ensures |s[11]| > 0 ==> c == s[10][0]
  {
    if |s[11]| > 0 then s[10][0] else previous
  }

  /** The field that is consulted and the field that is read differ: a standard sentence yields the first digit of the variation. */
  lemma EastWestReadsVariation(s: seq<string>, previous: char)
    requires |s| == FieldCount && s[10] == "003.1" && s[11] == "W"
    ensures EastWestAfter(s, previous) == '0' != s[11][0]
  {
  }

  /**
   * A receiver without a fix sends a 13-field sentence with empty fields.
   * It passes the structural check, but its empty time field is outside
   * what decoding can index: the source slices `gtime[0:2]` and panics.
   */
  lemma NoFixSentencePanics(s: seq<string>)
    requires s == ["$GPRMC", "", "V", "", "", "", "", "", "", "", "", "", "N"]
    ensures CheckRecord(s) == None
    ensures !FieldsIndexable(s)
  {
  }

  class GPRMC {
    var time: Timestamp
    var validity: char
    const latLong: array<real>
    var speed: real
    var course: real
    var variation: real
    var eastWest: char

    ghost predicate Valid()
      reads this
    {
      latLong.Length == 2
    }

    /** A fresh record holds Go's zero values. */
    constructor ()
      ensures Valid() && fresh(latLong)
      ensures time == ZeroTime && validity == 0 as char && latLong[..] == [0.0, 0.0]
      ensures speed == 0.0 && course == 0.0 && variation == 0.0 && eastWest == 0 as char
    {
      time := ZeroTime;
      validity := 0 as char;
      latLong := new real[2](_ => 0.0);
      speed, course, variation := 0.0, 0.0, 0.0;
      eastWest := 0 as char;
    }

    /**
     * Fills the record from a comma-split sentence. A record with the wrong
     * tag or the wrong number of fields is refused and leaves the record as
     * it was; otherwise numeric fields that do not parse become 0.
     */
    method FromNMEA(s: seq<string>, today: Date) returns (err: Option<DecodeError>)
      requires Valid() && |s| > 0
      requires s[0] == Tag && |s| == FieldCount ==> FieldsIndexable(s)
      modifies this, latLong
      ensures Valid()
      ensures err == CheckRecord(s)
      ensures err.Some? ==> unchanged(this) && unchanged(latLong)
      ensures err.None? ==> time == TimeFromGPS(s[1], s[9], today) && validity == s[2][0]
      ensures err.None? ==> latLong[0] == DegmintoFloat(s[3], s[4]) && latLong[1] == DegmintoFloat(s[5], s[6])
      ensures err.None? ==> speed == FloatOrZero(s[7]) && course == FloatOrZero(s[8]) && variation == FloatOrZero(s[10])
      ensures err.None? ==> eastWest == EastWestAfter(s, old(eastWest))
    {
      if s[0] != Tag {
        return Some(NotGPRMC);
      }
      if |s| != FieldCount {
        return Some(WrongFieldCount);
      }
      time := TimeFromGPS(s[1], s[9], today);
      validity := s[2][0];
      FromGPS(latLong, s[3], s[4], s[5], s[6]);
      speed := FloatOrZero(s[7]);
      course := FloatOrZero(s[8]);
      variation := FloatOrZero(s[10]);
      if |s[11]| > 0 {
        eastWest := s[10][0];
      }
      return None;
    }
  }

  lemma SampleSpeed()
    ensures FloatOrZero("022.4") == 22.4
  {
    DigitsAre("022", 22);
    DigitsAre("4", 4);
    ParseFloatDecimal("022", "4");
    assert "022.4" == "022" + "." + "4";
  }

  /**
   * Decoding the NMEA 0183 sample fix of 12:35:19 UTC on 23 March 1994, in
   * its 13-field form (the one with the mode field).
   */
  method DecodeSample(today: Date) returns (speed: real, year: int, latitude: real, eastWest: char)
    ensures speed == 22.4
    ensures year == 2094
    ensures latitude == 48.0 + 7.038 / 60.0
    ensures eastWest == '0'
  {
    var s := ["$GPRMC", "123519", "A", "4807.038", "N", "01131.000", "E", "022.4", "084.4", "230394", "003.1", "W", "A"];
    var g := new GPRMC();
    var err := g.FromNMEA(s, today);
    speed, year, latitude, eastWest := g.speed, g.time.year, g.latLong[0], g.eastWest;
    assert speed == FloatOrZero("022.4");
    assert year == TimeFromGPS("123519", "230394", today).year;
    assert latitude == DegmintoFloat("4807.038", "N");
    SampleSpeed();
    TimeFromGPSExamples(today);
    DegmintoFloatNorthExample();
  }

  /** The same fix in the older 12-field form, without the mode field, is refused. */
  method DecodeShortSample(today: Date) returns (err: Option<DecodeError>)
    ensures err == Some(WrongFieldCount)
  {
    var s := ["$GPRMC", "123519", "A", "4807.038", "N", "01131.000", "E", "022.4", "084.4", "230394", "003.1", "W"];
    var g := new GPRMC();
    err := g.FromNMEA(s, today);
  }
}
