/** Clock readings and the three ways the service renders them:
    `datetime.isoformat()`, the compact `%Y%m%d_%H%M%S` stamp used in
    generated identifiers, and the `%Y-%m-%d %H:%M:%S UTC` text used in
    notifications. The clock itself is never read: every operation that
    calls `datetime.now()` in the service receives a reading instead. */
module Clock {
  import opened Wrappers
  import opened Text

  /** A naive `datetime` value, field by field. */
  datatype DateTime = DateTime(year: nat, month: nat, day: nat,
                               hour: nat, minute: nat, second: nat, microsecond: nat)

  /** A reading the wall clock can produce. Years before 1000 are excluded:
      for them the platform's `strftime("%Y")` does not zero-fill. */
  predicate Valid(dt: DateTime) {
    && 1000 <= dt.year <= 9999
    && 1 <= dt.month <= 12
    && 1 <= dt.day <= 31
    && dt.hour < 24
    && dt.minute < 60
    && dt.second < 60
    && dt.microsecond < 1000000
  }

  lemma Pow10Values()
    ensures Pow10(2) == 100 && Pow10(4) == 10000 && Pow10(6) == 1000000
  {
    assert Pow10(1) == 10;
    assert Pow10(3) == 1000;
    assert Pow10(5) == 100000;
  }

  function Pad2(n: nat): (s: string)
    ensures AllDigits(s) && ParseDigits(s) == n
    ensures n < 100 ==> |s| == 2
  {
    Pow10Values();
    ZeroPad(n, 2)
  }

  function Pad4(n: nat): (s: string)
    ensures AllDigits(s) && ParseDigits(s) == n
    ensures n < 10000 ==> |s| == 4
  {
    Pow10Values();
    ZeroPad(n, 4)
  }

  function Pad6(n: nat): (s: string)
    ensures AllDigits(s) && ParseDigits(s) == n
    ensures n < 1000000 ==> |s| == 6
  {
    Pow10Values();
    ZeroPad(n, 6)
  }

  /** `dt.isoformat()`: `YYYY-MM-DDTHH:MM:SS`, followed by `.ffffff` only
      when the microsecond field is non-zero. */
  function IsoFormat(dt: DateTime): (s: string)
    ensures Valid(dt) ==> |s| == (if dt.microsecond == 0 then 19 else 26)
  {
    Pad4(dt.year) + "-" + Pad2(dt.month) + "-" + Pad2(dt.day) + "T"
    + Pad2(dt.hour) + ":" + Pad2(dt.minute) + ":" + Pad2(dt.second)
    + (if dt.microsecond == 0 then "" else "." + Pad6(dt.microsecond))
  }

  /** The decimal value of `s[i..j]`, if that slice is all digits. */
  function DigitsAt(s: string, i: nat, j: nat): Option<nat>
    requires i <= j <= |s|
  {
    if AllDigits(s[i..j]) then Some(ParseDigits(s[i..j])) else None
  }

  /** Reads back an ISO-8601 text in the two shapes `IsoFormat` writes. */
  function ParseIso(s: string): Option<DateTime>
  {
    if |s| != 19 && |s| != 26 then None
    else if s[4] != '-' || s[7] != '-' || s[10] != 'T' || s[13] != ':' || s[16] != ':' then None
    else if |s| == 26 && s[19] != '.' then None
    else
      var y := DigitsAt(s, 0, 4);
      var mo := DigitsAt(s, 5, 7);
      var d := DigitsAt(s, 8, 10);
      var h := DigitsAt(s, 11, 13);
      var mi := DigitsAt(s, 14, 16);
      var se := DigitsAt(s, 17, 19);
      var us := if |s| == 19 then Some(0) else DigitsAt(s, 20, 26);
      if y.None? || mo.None? || d.None? || h.None? || mi.None? || se.None? || us.None? then None
      else Some(DateTime(y.value, mo.value, d.value, h.value, mi.value, se.value, us.value))
  }

  /** Where each piece of a rendered ISO text sits. */
  lemma IsoLayout(y: string, mo: string, d: string, h: string, mi: string, se: string, f: string)
    requires |y| == 4 && |mo| == 2 && |d| == 2 && |h| == 2 && |mi| == 2 && |se| == 2
    ensures var s := y + "-" + mo + "-" + d + "T" + h + ":" + mi + ":" + se + f;
      && |s| == 19 + |f|
      && s[0..4] == y && s[4] == '-' && s[5..7] == mo && s[7] == '-' && s[8..10] == d
      && s[10] == 'T' && s[11..13] == h && s[13] == ':' && s[14..16] == mi && s[16] == ':'
      && s[17..19] == se && s[19..] == f
  {
  }

  /** The fields `ParseIso` reads from a text of the right shape. */
  lemma ParseIsoFields(s: string)
    requires |s| == 19 || |s| == 26
    requires s[4] == '-' && s[7] == '-' && s[10] == 'T' && s[13] == ':' && s[16] == ':'
    requires |s| == 26 ==> s[19] == '.'
    requires AllDigits(s[0..4]) && AllDigits(s[5..7]) && AllDigits(s[8..10])
    requires AllDigits(s[11..13]) && AllDigits(s[14..16]) && AllDigits(s[17..19])
    requires |s| == 26 ==> AllDigits(s[20..26])
    ensures ParseIso(s) == Some(DateTime(ParseDigits(s[0..4]), ParseDigits(s[5..7]), ParseDigits(s[8..10]),
                                         ParseDigits(s[11..13]), ParseDigits(s[14..16]), ParseDigits(s[17..19]),
                                         if |s| == 19 then 0 else ParseDigits(s[20..26])))
  {
  }

  /** Every rendered reading parses back to itself, so `isoformat` loses
      nothing (in particular the microseconds survive when non-zero). */
  lemma IsoRoundTrip(dt: DateTime)
    requires Valid(dt)
    ensures ParseIso(IsoFormat(dt)) == Some(dt)
  {
    var s := IsoFormat(dt);
    var f := if dt.microsecond == 0 then "" else "." + Pad6(dt.microsecond);
    IsoLayout(Pad4(dt.year), Pad2(dt.month), Pad2(dt.day), Pad2(dt.hour), Pad2(dt.minute), Pad2(dt.second), f);
    if dt.microsecond != 0 {
      assert s[20..26] == Pad6(dt.microsecond);
    }
    ParseIsoFields(s);
  }

  /** `dt.strftime("%Y%m%d_%H%M%S")`: the second-resolution stamp used in
      memory-entry and playbook identifiers. */
  function Stamp(dt: DateTime): (s: string)
    requires Valid(dt)
    ensures |s| == 15
    ensures s[8] == '_'
    ensures forall i :: 0 <= i < 15 && i != 8 ==> IsDigit(s[i])
  {
    Pad4(dt.year) + Pad2(dt.month) + Pad2(dt.day) + "_"
    + Pad2(dt.hour) + Pad2(dt.minute) + Pad2(dt.second)
  }

  lemma StampLayout(y: string, mo: string, d: string, h: string, mi: string, se: string)
    requires |y| == 4 && |mo| == 2 && |d| == 2 && |h| == 2 && |mi| == 2 && |se| == 2
    ensures var s := y + mo + d + "_" + h + mi + se;
      && s[0..4] == y && s[4..6] == mo && s[6..8] == d && s[9..11] == h && s[11..13] == mi && s[13..15] == se
  {
  }

  /** Two readings that agree up to the second render the same stamp, and
      readings that differ anywhere above the microsecond render different
      stamps: the stamp is exactly the second-resolution part of the clock. */
  lemma StampIsSecondResolution(a: DateTime, b: DateTime)
    requires Valid(a) && Valid(b)
    ensures Stamp(a) == Stamp(b) <==>
      (a.year, a.month, a.day, a.hour, a.minute, a.second)
      == (b.year, b.month, b.day, b.hour, b.minute, b.second)
  {
    if Stamp(a) == Stamp(b) {
      StampLayout(Pad4(a.year), Pad2(a.month), Pad2(a.day), Pad2(a.hour), Pad2(a.minute), Pad2(a.second));
      StampLayout(Pad4(b.year), Pad2(b.month), Pad2(b.day), Pad2(b.hour), Pad2(b.minute), Pad2(b.second));
    }
  }

  /** `dt.strftime("%Y-%m-%d %H:%M:%S UTC")`, the time line of notifications. */
  function HumanTime(dt: DateTime): (s: string)
    requires Valid(dt)
    ensures |s| == 23
  {
    Pad4(dt.year) + "-" + Pad2(dt.month) + "-" + Pad2(dt.day) + " "
    + Pad2(dt.hour) + ":" + Pad2(dt.minute) + ":" + Pad2(dt.second) + " UTC"
  }

  lemma HumanTimeLayout(y: string, mo: string, d: string, h: string, mi: string, se: string)
    requires |y| == 4 && |mo| == 2 && |d| == 2 && |h| == 2 && |mi| == 2 && |se| == 2
    ensures var s := y + "-" + mo + "-" + d + " " + h + ":" + mi + ":" + se + " UTC";
      && s[0..4] == y && s[4] == '-' && s[5..7] == mo && s[7] == '-' && s[8..10] == d
      && s[10] == ' ' && s[11..13] == h && s[13] == ':' && s[14..16] == mi && s[16] == ':'
      && s[17..19] == se && s[19..] == " UTC"
  {
  }

  /** The time line carries the same digits as the stamp, field by field,
      with the date and time separators in between and " UTC" at the end. */
  lemma HumanTimeMatchesStamp(dt: DateTime)
    requires Valid(dt)
    ensures var h := HumanTime(dt);
      var s := Stamp(dt);
      && h[0..4] == s[0..4] && h[5..7] == s[4..6] && h[8..10] == s[6..8]
      && h[11..13] == s[9..11] && h[14..16] == s[11..13] && h[17..19] == s[13..15]
      && h[4] == '-' && h[7] == '-' && h[10] == ' ' && h[13] == ':' && h[16] == ':' && h[19..] == " UTC"
  {
    HumanTimeLayout(Pad4(dt.year), Pad2(dt.month), Pad2(dt.day), Pad2(dt.hour), Pad2(dt.minute), Pad2(dt.second));
    StampLayout(Pad4(dt.year), Pad2(dt.month), Pad2(dt.day), Pad2(dt.hour), Pad2(dt.minute), Pad2(dt.second));
  }

  /** Two readings give the same time line exactly when they agree up to the
      second. */
  lemma HumanTimeIsSecondResolution(a: DateTime, b: DateTime)
    requires Valid(a) && Valid(b)
    ensures HumanTime(a) == HumanTime(b) <==>
      (a.year, a.month, a.day, a.hour, a.minute, a.second)
      == (b.year, b.month, b.day, b.hour, b.minute, b.second)
  {
    if HumanTime(a) == HumanTime(b) {
      HumanTimeLayout(Pad4(a.year), Pad2(a.month), Pad2(a.day), Pad2(a.hour), Pad2(a.minute), Pad2(a.second));
      HumanTimeLayout(Pad4(b.year), Pad2(b.month), Pad2(b.day), Pad2(b.hour), Pad2(b.minute), Pad2(b.second));
    }
  }
}
