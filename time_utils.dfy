/**
 * The formatting helpers: the "±HH:MM" text of a time-zone offset and the
 * choice of unit when a duration is shown to a person.
 */
module TimeUtils {
  import opened CppInt
  import opened Utils

  // ---------------------------------------------------------------------------
  // tz_offset_to_string

  function DigitChar(d: nat): (c: char)
    requires d < 10
    ensures IsDigit(c) && DigitValue(c) == d
  {
    ('0' as int + d) as char
  }

  /** The decimal digits of n, as `%d` prints a non-negative number. */
  function Decimal(n: nat): (r: string)
    ensures AllDigits(r) && DigitsValue(r) == n
    ensures 1 <= |r|
    ensures n < 10 ==> |r| == 1
    ensures 10 <= n < 100 ==> |r| == 2
    ensures 10 <= n ==> 2 <= |r|
  {
    var last := [DigitChar(n % 10)];
    if n < 10 then
      assert last[..0] == [];
      last
    else
      var r := Decimal(n / 10) + last;
      assert r[..|r| - 1] == Decimal(n / 10);
      r
  }

  /** `%02d`: at least two digits, padded with a leading zero. */
  function Pad2(n: nat): (r: string)
    ensures AllDigits(r) && DigitsValue(r) == n
    ensures n < 100 ==> |r| == 2
    ensures 2 <= |r|
  {
    var d := Decimal(n);
    if n < 10 then
      var r := "0" + d;
      assert r[..1] == "0";
      assert r[..1][..0] == [];
      r
    else d
  }

  /** The sign, the hours and the minutes `tz_offset_to_string` prints for an offset in minutes. */
  function OffsetFields(offset: int): (char, nat, nat) {
    (if offset < 0 then '-' else '+', Abs(TruncDiv(offset, 60)), Abs(TruncMod(offset, 60)))
  }

  /**
   * `tz_offset_to_string`: "%c%02d:%02d" of the sign, the hours and the
   * minutes. For every offset the text is the sign of the offset, at least
   * two digits of hours, a colon and two digits of minutes, and the digits
   * read back as the size of the offset.
   */
  function TzOffsetToString(offset: int): (s: string)
    ensures 6 <= |s|
    ensures (s[0] == '-' <==> offset < 0) && (s[0] == '+' <==> offset >= 0)
    ensures s[|s| - 3] == ':' && AllDigits(s[1..|s| - 3]) && AllDigits(s[|s| - 2..])
    ensures DigitsValue(s[1..|s| - 3]) * 60 + DigitsValue(s[|s| - 2..]) == Abs(offset)
    ensures DigitsValue(s[|s| - 2..]) < 60
  {
    OffsetFieldsExact(offset);
    var f := OffsetFields(offset);
    var h := Pad2(f.1);
    var m := Pad2(f.2);
    assert |m| == 2;
    var s := [f.0] + h + ":" + m;
    assert s[1..|s| - 3] == h;
    assert s[|s| - 2..] == m;
    s
  }

  /**
   * The sign is '-' exactly for negative offsets, and the hours and minutes
   * printed add back up to the size of the offset: truncating division and
   * remainder give both the sign of the offset.
   */
  lemma OffsetFieldsExact(offset: int)
    ensures var (sign, hours, minutes) := OffsetFields(offset);
            (sign == '-' <==> offset < 0) && (sign == '+' <==> offset >= 0) &&
            minutes < 60 && hours * 60 + minutes == Abs(offset)
  {
    var q := TruncDiv(offset, 60);
    var r := TruncMod(offset, 60);
    assert offset == q * 60 + r;
    if offset < 0 {
      assert q <= 0 && r <= 0;
      assert Abs(q) * 60 + Abs(r) == -(q * 60) - r;
    } else {
      assert q >= 0 && r >= 0;
    }
  }

  /**
   * Under 100 hours the text is exactly six characters: the sign, two digits
   * of hours, a colon and two digits of minutes, and the digits read back as
   * the size of the offset.
   */
  lemma TzOffsetText(offset: int)
    requires Abs(offset) < 100 * 60
    ensures var s := TzOffsetToString(offset);
            |s| == 6 && (s[0] == '-' <==> offset < 0) && (s[0] == '+' <==> offset >= 0) && s[3] == ':' &&
            AllDigits(s[1..3]) && AllDigits(s[4..6]) &&
            DigitsValue(s[1..3]) * 60 + DigitsValue(s[4..6]) == Abs(offset) &&
            DigitsValue(s[4..6]) < 60
  {
    OffsetFieldsExact(offset);
    var (sign, hours, minutes) := OffsetFields(offset);
    var s := TzOffsetToString(offset);
    assert s == [sign] + Pad2(hours) + ":" + Pad2(minutes);
    assert s[1..3] == Pad2(hours);
    assert s[4..6] == Pad2(minutes);
  }

  // ---------------------------------------------------------------------------
  // seconds_to_human

  datatype Unit = Milliseconds | Seconds | Minutes | Hours | Days

  /** The length of one unit in seconds. */
  function UnitSeconds(u: Unit): (r: real)
    ensures r > 0.0
  {
    match u
    case Milliseconds => 0.001
    case Seconds => 1.0
    case Minutes => 60.0
    case Hours => 3600.0
    case Days => 86400.0
  }

  /** The text printed after the number. */
  function UnitName(u: Unit): string {
    match u
    case Milliseconds => "ms"
    case Seconds => "s"
    case Minutes => "min"
    case Hours => "hrs"
    case Days => "days"
  }

  /** The next larger unit. */
  function Next(u: Unit): Unit
    requires u != Days
  {
    match u
    case Milliseconds => Seconds
    case Seconds => Minutes
    case Minutes => Hours
    case Hours => Days
  }

  function RealAbs(x: real): (r: real)
    ensures r >= 0.0 && (r == x || r == -x)
  {
    if x < 0.0 then -x else x
  }

  /**
   * What `seconds_to_human` shows, before `%.1f` turns the amount into text:
   * whether a '+' goes in front, the amount, and the unit.
   */
  datatype Human = Human(plus: bool, amount: real, unit: Unit)

  /**
   * The unit a duration is shown in: the largest one of which it is at least
   * two (milliseconds below two seconds).
   */
  predicate FitsUnit(s: real, u: Unit) {
    (u != Milliseconds ==> RealAbs(s) >= 2.0 * UnitSeconds(u)) &&
    (u != Days ==> RealAbs(s) < 2.0 * UnitSeconds(Next(u)))
  }

  /** `seconds_to_human(s, show_positive)`. */
  function SecondsToHuman(s: real, showPositive: bool): (h: Human)
    ensures h.plus <==> showPositive && s > 0.0
    ensures h.amount * UnitSeconds(h.unit) == s
    ensures FitsUnit(s, h.unit)
  {
    var a := RealAbs(s);
    var u := if a < 2.0 then Milliseconds
             else if a < 120.0 then Seconds
             else if a < 7200.0 then Minutes
             else if a < 172800.0 then Hours
             else Days;
    var amount := match u
      case Milliseconds => 1000.0 * s
      case Seconds => s
      case Minutes => s / 60.0
      case Hours => s / 3600.0
      case Days => s / 86400.0;
    Human(showPositive && s > 0.0, amount, u)
  }

  /** Exactly one unit fits a duration, so the choice is forced. */
  lemma FitsUnitUnique(s: real, u: Unit)
    requires FitsUnit(s, u)
    ensures u == SecondsToHuman(s, false).unit
  {
  }
}
