/**
 * Time zone objects: `Utc` and `FixedOffset`.  Offsets are in minutes
 * east of UTC; `dst` is always zero.
 */
module Tz {
  import opened Wrappers
  import opened Strings

  datatype TzInfo = Utc | FixedOffset(offset: int, name: string)

  /** `utcoffset(dt)` in minutes; it does not depend on `dt`. */
  function UtcOffset(tz: TzInfo): (minutes: int)
    ensures tz.Utc? ==> minutes == 0
    ensures tz.FixedOffset? ==> minutes == tz.offset
  {
    match tz
    case Utc => 0
    case FixedOffset(offset, _) => offset
  }

  /** `dst(dt)`: neither zone observes daylight saving time. */
  function Dst(tz: TzInfo): (minutes: int)
    ensures minutes == 0
  {
    0
  }

  /** `tzname(dt)`. */
  function TzName(tz: TzInfo): (name: string)
    ensures tz.Utc? ==> name == "UTC"
    ensures tz.FixedOffset? ==> name == tz.name
  {
    match tz
    case Utc => "UTC"
    case FixedOffset(_, name) => name
  }

  /** `'{:+03d}'.format(h)`: an explicit sign, then at least two digits. */
  function SignedTwoDigits(h: int): string
  {
    (if h < 0 then "-" else "+") + ZeroPad(NatToString(if h < 0 then -h else h), 2)
  }

  /** `'{:02d}'.format(m)` for a non-negative `m`. */
  function TwoDigits(m: nat): string
  {
    ZeroPad(NatToString(m), 2)
  }

  /**
   * The default name as tz.py writes it: hours by floor division and
   * minutes by floor modulo, so a negative offset that is not a whole
   * number of hours is named one hour too far west.
   */
  function DefaultNameAsWritten(offset: int): string
  {
    SignedTwoDigits(offset / 60) + ":" + TwoDigits(offset % 60)
  }

  /** The intended default name: the sign, then hours and minutes of the magnitude. */
  function DefaultName(offset: int): string
  {
    var a := if offset < 0 then -offset else offset;
    (if offset < 0 then "-" else "+") + TwoDigits(a / 60) + ":" + TwoDigits(a % 60)
  }

  /** Reads a `±HH:MM` name back as a number of minutes. */
  function NameOffset(name: string): Option<int>
  {
    if |name| == 6 && (name[0] == '+' || name[0] == '-') && name[3] == ':'
       && AllDigits(name[1..3]) && AllDigits(name[4..6])
    then
      var minutes := ParseDigits(name[1..3]) * 60 + ParseDigits(name[4..6]);
      Some(if name[0] == '-' then -minutes else minutes)
    else None
  }

  /**
   * `FixedOffset(offset, name)`: an empty or missing name falls back to the
   * default one as tz.py writes it, which is the intended name at or east
   * of UTC.
   */
  function MakeFixedOffset(offset: int, name: Option<string>): (tz: TzInfo)
    ensures tz.FixedOffset? && UtcOffset(tz) == offset && Dst(tz) == 0
    ensures name.Some? && name.value != "" ==> TzName(tz) == name.value
    ensures name.None? || name.value == "" ==> TzName(tz) == DefaultNameAsWritten(offset)
  {
    FixedOffset(offset, if name.Some? && name.value != "" then name.value else DefaultNameAsWritten(offset))
  }

  lemma {:induction false} TwoDigitsShape(n: nat)
    requires n < 100
    ensures |TwoDigits(n)| == 2 && AllDigits(TwoDigits(n)) && ParseDigits(TwoDigits(n)) == n
  {
    NatToStringWidth(n, 2);
    PaddedRoundTrip(n, 2);
  }

  lemma {:induction false} NameOffsetOfParts(negative: bool, h: nat, m: nat)
    requires h < 100 && m < 100
    ensures NameOffset((if negative then "-" else "+") + TwoDigits(h) + ":" + TwoDigits(m))
            == Some(if negative then -(h * 60 + m) else h * 60 + m)
  {
    TwoDigitsShape(h);
    TwoDigitsShape(m);
    var name := (if negative then "-" else "+") + TwoDigits(h) + ":" + TwoDigits(m);
    assert name[1..3] == TwoDigits(h);
    assert name[4..6] == TwoDigits(m);
  }

  /** The intended name reads back as the offset, for every offset under 100 hours. */
  lemma {:induction false} DefaultNameReadsBack(offset: int)
    requires -6000 < offset < 6000
    ensures NameOffset(DefaultName(offset)) == Some(offset)
  {
    var a := if offset < 0 then -offset else offset;
    NameOffsetOfParts(offset < 0, a / 60, a % 60);
  }

  /** For offsets at or east of UTC the written name is the intended one. */
  lemma DefaultNameAsWrittenEast(offset: int)
    requires offset >= 0
    ensures DefaultNameAsWritten(offset) == DefaultName(offset)
  {
  }

  /** West of UTC by a fraction of an hour, the written name reads back one hour further west. */
  lemma DefaultNameAsWrittenWest()
    ensures DefaultNameAsWritten(-90) == "-02:30"
    ensures NameOffset(DefaultNameAsWritten(-90)) == Some(-150)
    ensures DefaultName(-90) == "-01:30"
  {
    assert -90 / 60 == -2 && -90 % 60 == 30;
    assert NatToString(2) == "2" && ZeroPad("2", 2) == "02";
    assert NatToString(30) == "30" && ZeroPad("30", 2) == "30";
    assert NatToString(1) == "1" && ZeroPad("1", 2) == "01";
    assert DefaultNameAsWritten(-90) == "-" + TwoDigits(2) + ":" + TwoDigits(30);
    NameOffsetOfParts(true, 2, 30);
  }

  /** `FixedOffset(540).tzname(None) == '+09:00'`. */
  lemma NameOfNineHoursEast()
    ensures TzName(MakeFixedOffset(540, None)) == "+09:00"
  {
    assert NatToString(9) == "9" && ZeroPad("9", 2) == "09";
    assert NatToString(0) == "0" && ZeroPad("0", 2) == "00";
  }
}
