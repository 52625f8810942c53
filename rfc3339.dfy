/**
 * `Rfc3339`: date-times as the `date-time` production of section 5.6 of
 * RFC 3339, `YYYY-MM-DDTHH:MM:SS[.frac](Z|+HH:MM|-HH:MM)`.
 */
module Rfc3339 {
  import opened Wrappers
  import opened Strings
  import opened Calendar
  import opened Tz
  import opened DateTimes

  // ------------------------------------------------------------- writing

  /** The template `%Y-%m-%dT%H:%M:%S`, with `T` in upper case. */
  const HeaderPattern: Template :=
    Field(4, Literal('-', Field(2, Literal('-', Field(2, Literal('T',
    Field(2, Literal(':', Field(2, Literal(':', Field(2, End)))))))))))

  /** The `HH:MM` after the sign of a numeric offset. */
  const OffsetPattern: Template := Field(2, Literal(':', Field(2, End)))

  /** `strftime('%Y-%m-%dT%H:%M:%S')`. */
  function Header(c: Civil): string
    requires ValidCivil(c)
  {
    Fill(HeaderPattern, [c.year, c.month, c.day, c.hour, c.minute, c.second])
  }

  /** `'.{0:06}'.format(us).rstrip('0')` when `us` is non-zero, else nothing. */
  function Fraction(us: int): string
    requires 0 <= us < 1000000
  {
    if us == 0 then "" else "." + RStripZeros(ZeroPad(NatToString(us), 6))
  }

  /**
   * The zone suffix as `encode` writes it: `Z` for a zero offset, otherwise
   * the hours and minutes of `timedelta.seconds`, which is the offset taken
   * modulo one day, always with a `+` sign.
   */
  function ZoneAsWritten(offset: int): string
  {
    if offset == 0 then "Z"
    else
      var m := offset % 1440;
      "+" + TwoDigits(m / 60) + ":" + TwoDigits(m % 60)
  }

  /** The intended zone suffix: `Z`, or the signed hours and minutes of the offset. */
  function Zone(offset: int): string
  {
    if offset == 0 then "Z" else DefaultName(offset)
  }

  /** The text `encode` writes for an aware value, with a given zone suffix writer. */
  function RenderAsWritten(d: DateTime): string
    requires WellFormed(d) && d.tz.Some?
  {
    Header(d.civil) + Fraction(d.civil.microsecond) + ZoneAsWritten(UtcOffset(d.tz.value))
  }

  function Render(d: DateTime): string
    requires WellFormed(d) && d.tz.Some?
  {
    Header(d.civil) + Fraction(d.civil.microsecond) + Zone(UtcOffset(d.tz.value))
  }

  /**
   * `Rfc3339(prefer_utc).encode(value)` as written: only aware `datetime`
   * values are accepted, converted to UTC first when `prefer_utc` is set.
   * It fails exactly where the intended encoding fails, and under
   * `prefer_utc` it writes the same text.
   */
  function EncodeAsWritten(value: Arg<DateTime>, preferUtc: bool): (r: Result<string>)
    requires value.Instance? ==> WellFormed(value.value)
    ensures value.OtherType? || value.value.tz.None? ==> r == Err(EncodeError)
    ensures value.Instance? && value.value.tz.Some? && !preferUtc ==> r == Ok(RenderAsWritten(value.value))
    ensures value.Instance? && value.value.tz.Some? && preferUtc ==>
              if AsUtc(value.value).Ok? then r == Ok(RenderAsWritten(AsUtc(value.value).value))
              else r == Err(AsUtc(value.value).error)
    ensures r.Err? <==> Encode(value, preferUtc).Err?
    ensures r.Err? ==> r == Encode(value, preferUtc)
    ensures preferUtc ==> r == Encode(value, preferUtc)
  {
    if value.OtherType? || value.value.tz.None? then Err(EncodeError)
    else if preferUtc then
      match AsUtc(value.value)
      case Ok(u) => Ok(RenderAsWritten(u))
      case Err(e) => Err(e)
    else Ok(RenderAsWritten(value.value))
  }

  /** `Rfc3339(prefer_utc).encode(value)` with the zone suffix signed as intended. */
  function Encode(value: Arg<DateTime>, preferUtc: bool): (r: Result<string>)
    requires value.Instance? ==> WellFormed(value.value)
    ensures value.OtherType? || value.value.tz.None? ==> r == Err(EncodeError)
    ensures r.Err? ==> r.error == EncodeError
                       || (preferUtc && value.Instance? && AsUtc(value.value) == Err(r.error))
  {
    if value.OtherType? || value.value.tz.None? then Err(EncodeError)
    else if preferUtc then
      match AsUtc(value.value)
      case Ok(u) => Ok(Render(u))
      case Err(e) => Err(e)
    else Ok(Render(value.value))
  }

  // ------------------------------------------------------------- reading

  /**
   * `±HH:MM` with hours 00-23 and minutes 00-59, as minutes east of UTC
   * (negative west of it).
   */
  function OffsetMinutes(z: string): (r: Option<int>)
    ensures r.Some? ==> ValidOffset(r.value)
  {
    if |z| == 6 && (z[0] == '+' || z[0] == '-') then
      match Scan(OffsetPattern, z[1..])
      case Some((v, rest)) =>
        if rest == [] && v[0] <= 23 && v[1] <= 59 then
          var m: int := v[0] * 60 + v[1];
          Some(if z[0] == '-' then -m else m)
        else None
      case None => None
    else None
  }

  /** Splits what follows the seconds into the optional fraction and the zone. */
  function SplitZone(t: string): (r: Option<(string, TzInfo)>)
    ensures r.Some? ==> ValidOffset(UtcOffset(r.value.1))
  {
    if t != [] && t[|t| - 1] == 'Z' then Some((t[..|t| - 1], Utc))
    else if |t| >= 6 && OffsetMinutes(t[|t| - 6..]).Some? then
      Some((t[..|t| - 6], MakeFixedOffset(OffsetMinutes(t[|t| - 6..]).value, None)))
    else None
  }

  /** `d` followed by zeros up to six digits; longer digit strings are kept whole. */
  function PadMicro(d: string): (r: string)
    requires AllDigits(d)
    ensures AllDigits(r) && |r| >= 6
  {
    if |d| < 6 then d + Zeros(6 - |d|) else d
  }

  /**
   * The microseconds of an optional `.digits` part: the digits padded on
   * the right to six places.  More than six digits may give a value of a
   * million or more, which `datetime` then refuses.
   */
  function ParseFraction(f: string): Option<int>
  {
    if f == [] then Some(0)
    else if |f| >= 2 && f[0] == '.' && AllDigits(f[1..]) then Some(ParseDigits(PadMicro(f[1..])))
    else None
  }

  /**
   * `Rfc3339(prefer_utc).decode(text)`: the stripped text must be a whole
   * RFC 3339 date-time and name a real `datetime`, else `DecodeError`; an
   * offset gives an unnamed `FixedOffset`, `Z` gives `utc`.  With
   * `prefer_utc` a non-`utc` result is converted to UTC, which may overflow.
   */
  function Decode(text: string, preferUtc: bool): (r: Result<DateTime>)
    ensures r.Ok? ==> WellFormed(r.value) && r.value.tz.Some? && ValidOffset(UtcOffset(r.value.tz.value))
    ensures r.Ok? && preferUtc ==> r.value.tz == Some(Utc)
    ensures r.Err? ==> r.error == DecodeError || (preferUtc && r.error == OverflowError)
  {
    match Scan(HeaderPattern, Strip(text))
    case None => Err(DecodeError)
    case Some((f, t)) =>
      HeaderArity();
      FromParts(f, t, preferUtc)
  }

  lemma HeaderArity()
    ensures Arity(HeaderPattern) == 6
  {
  }

  /** The date-time named by the six header fields and the text after them. */
  function FromParts(f: seq<nat>, t: string, preferUtc: bool): (r: Result<DateTime>)
    requires |f| == 6
    ensures r.Ok? ==> WellFormed(r.value) && r.value.tz.Some? && ValidOffset(UtcOffset(r.value.tz.value))
    ensures r.Ok? && preferUtc ==> r.value.tz == Some(Utc)
    ensures r.Err? ==> r.error == DecodeError || (preferUtc && r.error == OverflowError)
  {
    match SplitZone(t)
    case None => Err(DecodeError)
    case Some((frac, tz)) =>
      match ParseFraction(frac)
      case None => Err(DecodeError)
      case Some(us) =>
        var c := Civil(f[0], f[1], f[2], f[3], f[4], f[5], us);
        if !ValidCivil(c) then Err(DecodeError)
        else if preferUtc && tz != Utc then AsUtc(DateTime(c, Some(tz)))
        else Ok(DateTime(c, Some(tz)))
  }

  // ------------------------------------------------------------ round trip

  lemma {:induction false} HeaderRoundTrip(c: Civil, rest: string)
    requires ValidCivil(c)
    ensures IsDigit(Header(c)[0])
    ensures Scan(HeaderPattern, Header(c) + rest)
            == Some(([c.year, c.month, c.day, c.hour, c.minute, c.second], rest))
  {
    var vals: seq<nat> := [c.year, c.month, c.day, c.hour, c.minute, c.second];
    HeaderFits(vals);
    ScanFill(HeaderPattern, vals, rest);
    var y := ZeroPad(NatToString(c.year), 4);
    assert Header(c) == y + Fill(HeaderPattern.next, vals[1..]);
    NatToStringWidth(c.year, 4);
    PaddedRoundTrip(c.year, 4);
  }

  lemma Pow10Small()
    ensures Pow10(2) == 100 && Pow10(4) == 10000 && Pow10(6) == 1000000
  {
    assert Pow10(1) == 10;
    assert Pow10(3) == 1000;
    assert Pow10(5) == 100000;
  }

  lemma {:induction false} HeaderFits(vals: seq<nat>)
    requires |vals| == 6 && vals[0] < 10000
    requires forall i :: 1 <= i < 6 ==> vals[i] < 100
    ensures Fits(HeaderPattern, vals)
    ensures Fill(HeaderPattern, vals) == ZeroPad(NatToString(vals[0]), 4) + Fill(HeaderPattern.next, vals[1..])
  {
    Pow10Small();
    var v1 := vals[1..];
    var v2 := v1[1..];
    var v3 := v2[1..];
    var v4 := v3[1..];
    var v5 := v4[1..];
    assert v5[1..] == [];
    var p := HeaderPattern;
    assert Fits(p.next.next.next.next.next.next.next.next.next.next, v5);
    assert Fits(p.next.next.next.next.next.next.next.next, v4);
    assert Fits(p.next.next.next.next.next.next, v3);
    assert Fits(p.next.next.next.next, v2);
    assert Fits(p.next.next, v1);
  }

  lemma {:induction false} OffsetFill(h: nat, m: nat)
    requires h < 100 && m < 100
    ensures Fits(OffsetPattern, [h, m])
    ensures Fill(OffsetPattern, [h, m]) == TwoDigits(h) + ":" + TwoDigits(m)
  {
    Pow10Small();
    assert [h, m][1..] == [m];
    assert [m][1..] == [];
    assert Fits(End, [m][1..]);
    assert Fits(Field(2, End), [m]);
    assert Fits(Literal(':', Field(2, End)), [m]);
    assert Fill(Field(2, End), [m]) == TwoDigits(m);
    assert Fill(OffsetPattern, [h, m]) == TwoDigits(h) + ([':'] + TwoDigits(m));
  }

  /** A sign followed by `HH:MM` is the offset template after the sign. */
  lemma {:induction false} SignedOffset(sign: char, h: nat, m: nat)
    requires h <= 23 && m <= 59 && (sign == '+' || sign == '-')
    ensures var z := [sign] + TwoDigits(h) + ":" + TwoDigits(m);
            |z| == 6 && IsDigit(z[5])
            && OffsetMinutes(z) == Some(if sign == '-' then -(h * 60 + m) else h * 60 + m)
  {
    TwoDigitsShape(h);
    TwoDigitsShape(m);
    var z := [sign] + TwoDigits(h) + ":" + TwoDigits(m);
    OffsetFill(h, m);
    assert z[1..] == Fill(OffsetPattern, [h, m]) + "";
    ScanFill(OffsetPattern, [h, m], "");
    assert z[5] == TwoDigits(m)[1];
  }

  lemma {:induction false} FractionRoundTrip(us: int)
    requires 0 <= us < 1000000
    ensures ParseFraction(Fraction(us)) == Some(us)
  {
    if us != 0 {
      var p := ZeroPad(NatToString(us), 6);
      Pow10Small();
      NatToStringWidth(us, 6);
      PaddedRoundTrip(us, 6);
      assert |p| == 6 && AllDigits(p) && ParseDigits(p) == us;
      var d := RStripZeros(p);
      StrippedFraction(p, d);
      var f := Fraction(us);
      assert f == "." + d;
      assert f[1..] == d;
    }
  }

  /** The digits left after stripping trailing zeros pad back to the six digits. */
  lemma {:induction false} StrippedFraction(p: string, d: string)
    requires |p| == 6 && AllDigits(p) && ParseDigits(p) != 0 && d == RStripZeros(p)
    ensures d != [] && AllDigits(d) && PadMicro(d) == p
  {
    RStripZerosPad(p);
    if d == [] {
      assert p == Zeros(6) by { assert d + Zeros(6) == Zeros(6); }
      ParseZeros(6);
    }
    assert forall i :: 0 <= i < |d| ==> d[i] == p[i];
  }

  lemma {:induction false} OffsetMinutesOfName(offset: int)
    requires ValidOffset(offset) && offset != 0
    ensures |Zone(offset)| == 6 && IsDigit(Zone(offset)[5])
    ensures OffsetMinutes(Zone(offset)) == Some(offset)
  {
    var a := if offset < 0 then -offset else offset;
    SignedOffset(if offset < 0 then '-' else '+', a / 60, a % 60);
    assert Zone(offset) == [if offset < 0 then '-' else '+'] + TwoDigits(a / 60) + ":" + TwoDigits(a % 60);
  }

  lemma {:induction false} OffsetMinutesAsWritten(offset: int)
    requires offset != 0
    ensures |ZoneAsWritten(offset)| == 6 && IsDigit(ZoneAsWritten(offset)[5])
    ensures OffsetMinutes(ZoneAsWritten(offset)) == Some(offset % 1440)
  {
    var m := offset % 1440;
    SignedOffset('+', m / 60, m % 60);
    assert ZoneAsWritten(offset) == ['+'] + TwoDigits(m / 60) + ":" + TwoDigits(m % 60);
  }

  /**
   * Reading back a header, a fraction and a zone suffix gives the civil
   * fields and the zone the suffix names.
   */
  lemma {:induction false} DecodeParts(c: Civil, z: string)
    requires ValidCivil(c)
    requires z == "Z" || (|z| == 6 && IsDigit(z[5]) && OffsetMinutes(z).Some?)
    ensures Decode(Header(c) + Fraction(c.microsecond) + z, false)
            == Ok(DateTime(c, Some(ZoneOf(z))))
  {
    var h := Header(c);
    var f := Fraction(c.microsecond);
    assert h + f + z == h + (f + z);
    assert (f + z)[|f + z| - 1] == z[|z| - 1];
    var vals: seq<nat> := [c.year, c.month, c.day, c.hour, c.minute, c.second];
    DecodeHeader(c, h, vals, f + z, false);
    FromPartsOf(c, vals, z, false);
  }

  /** Decoding a header followed by more text reads the header's fields. */
  lemma {:induction false} DecodeHeader(c: Civil, h: string, vals: seq<nat>, rest: string, preferUtc: bool)
    requires ValidCivil(c) && h == Header(c)
    requires vals == [c.year, c.month, c.day, c.hour, c.minute, c.second]
    requires rest != [] && !IsSpace(rest[|rest| - 1])
    ensures Decode(h + rest, preferUtc) == FromParts(vals, rest, preferUtc)
  {
    var s := h + rest;
    HeaderRoundTrip(c, rest);
    assert s[0] == h[0];
    assert s[|s| - 1] == rest[|rest| - 1];
    StripUnchanged(s);
  }

  lemma {:induction false} FromPartsOf(c: Civil, vals: seq<nat>, z: string, preferUtc: bool)
    requires ValidCivil(c) && vals == [c.year, c.month, c.day, c.hour, c.minute, c.second]
    requires z == "Z" || (|z| == 6 && IsDigit(z[5]) && OffsetMinutes(z).Some?)
    requires preferUtc ==> z == "Z"
    ensures FromParts(vals, Fraction(c.microsecond) + z, preferUtc) == Ok(DateTime(c, Some(ZoneOf(z))))
  {
    var f := Fraction(c.microsecond);
    SplitZoneOf(f, z);
    FractionRoundTrip(c.microsecond);
    var c' := Civil(vals[0], vals[1], vals[2], vals[3], vals[4], vals[5], c.microsecond);
    assert c' == c;
  }

  /** The zone a suffix names: `Z` is `utc`, an offset an unnamed `FixedOffset`. */
  function ZoneOf(z: string): TzInfo
    requires z == "Z" || OffsetMinutes(z).Some?
  {
    if z == "Z" then Utc else MakeFixedOffset(OffsetMinutes(z).value, None)
  }

  lemma {:induction false} SplitZoneOf(f: string, z: string)
    requires z == "Z" || (|z| == 6 && IsDigit(z[5]) && OffsetMinutes(z).Some?)
    ensures SplitZone(f + z) == Some((f, ZoneOf(z)))
  {
    var t := f + z;
    if z == "Z" {
      assert t[|t| - 1] == 'Z';
      assert t[..|t| - 1] == f;
    } else {
      assert t[|t| - 1] == z[5];
      assert t[|t| - 6..] == z;
      assert t[..|t| - 6] == f;
    }
  }

  /**
   * Every aware value whose offset is within a day reads back as itself,
   * with a zero offset read as `utc` and any other as an unnamed
   * `FixedOffset`.
   */
  lemma {:induction false} RoundTrip(d: DateTime)
    requires WellFormed(d) && d.tz.Some? && ValidOffset(UtcOffset(d.tz.value))
    ensures Decode(Render(d), false) == Ok(DateTime(d.civil, Some(Normalized(d.tz.value))))
  {
    var o := UtcOffset(d.tz.value);
    if o != 0 {
      OffsetMinutesOfName(o);
    }
    DecodeParts(d.civil, Zone(o));
  }

  /** With `prefer_utc`, encoding and decoding gives the value converted to UTC. */
  lemma {:induction false} EncodeRoundTrip(d: DateTime, preferUtc: bool)
    requires WellFormed(d) && d.tz.Some? && ValidOffset(UtcOffset(d.tz.value))
    requires preferUtc ==> AsUtc(d).Ok?
    ensures Encode(Instance(d), preferUtc).Ok?
    ensures Decode(Encode(Instance(d), preferUtc).value, false)
            == Ok(if preferUtc then AsUtc(d).value else DateTime(d.civil, Some(Normalized(d.tz.value))))
  {
    if preferUtc {
      var u := AsUtc(d).value;
      assert Encode(Instance(d), preferUtc) == Ok(Render(u));
      RoundTrip(u);
      assert DateTime(u.civil, Some(Normalized(u.tz.value))) == u;
    } else {
      assert Encode(Instance(d), preferUtc) == Ok(Render(d));
      RoundTrip(d);
    }
  }

  /** As written, five hours west of UTC is written `+19:00`. */
  lemma ZoneAsWrittenWest()
    ensures ZoneAsWritten(-300) == "+19:00"
    ensures Zone(-300) == "-05:00"
  {
    assert -300 % 1440 == 1140 && 1140 / 60 == 19 && 1140 % 60 == 0;
    assert NatToString(19) == "19" && ZeroPad("19", 2) == "19";
    assert NatToString(5) == "5" && ZeroPad("5", 2) == "05";
    assert NatToString(0) == "0" && ZeroPad("0", 2) == "00";
  }

  /**
   * As written, every offset west of UTC reads back one day further east:
   * a different instant, and the round trip fails.
   */
  lemma {:induction false} EncodeAsWrittenWest(c: Civil, offset: int)
    requires ValidCivil(c) && -1440 < offset < 0
    ensures Decode(RenderAsWritten(DateTime(c, Some(MakeFixedOffset(offset, None)))), false)
            == Ok(DateTime(c, Some(MakeFixedOffset(offset + 1440, None))))
  {
    var z := ZoneAsWritten(offset);
    OffsetMinutesAsWritten(offset);
    assert offset % 1440 == offset + 1440;
    assert ZoneOf(z) == MakeFixedOffset(offset + 1440, None);
    DecodeParts(c, z);
  }

  /** A UTC value reads back as itself whether or not `prefer_utc` is set. */
  lemma {:induction false} UtcRoundTrip(c: Civil, preferUtc: bool)
    requires ValidCivil(c)
    ensures Decode(Render(DateTime(c, Some(Utc))), preferUtc) == Ok(DateTime(c, Some(Utc)))
  {
    var h := Header(c);
    var f := Fraction(c.microsecond);
    assert Render(DateTime(c, Some(Utc))) == h + (f + "Z");
    var vals: seq<nat> := [c.year, c.month, c.day, c.hour, c.minute, c.second];
    DecodeHeader(c, h, vals, f + "Z", preferUtc);
    FromPartsOf(c, vals, "Z", preferUtc);
  }

  /** A UTC value is written as one non-empty word without commas. */
  lemma {:induction false} UtcShape(c: Civil)
    requires ValidCivil(c)
    ensures var r := Render(DateTime(c, Some(Utc)));
            r != [] && NoSpace(r) && ',' !in r
  {
    var h := Header(c);
    var f := Fraction(c.microsecond);
    var r := Render(DateTime(c, Some(Utc)));
    assert r == h + f + "Z";
    var vals: seq<nat> := [c.year, c.month, c.day, c.hour, c.minute, c.second];
    assert PlainLiterals(HeaderPattern);
    assert !HasLiteral(HeaderPattern, ',');
    FillNoSpace(HeaderPattern, vals);
    FillAvoids(HeaderPattern, vals, ',');
    FractionShape(c.microsecond);
    forall i | 0 <= i < |r| ensures !IsSpace(r[i]) && r[i] != ',' {
      if i < |h| {
        assert r[i] == h[i];
      } else if i < |h| + |f| {
        assert r[i] == f[i - |h|];
      }
    }
  }

  /** The fraction is a point followed by digits, or nothing. */
  lemma {:induction false} FractionShape(us: int)
    requires 0 <= us < 1000000
    ensures forall i :: 0 <= i < |Fraction(us)| ==> Fraction(us)[i] == '.' || IsDigit(Fraction(us)[i])
  {
    if us != 0 {
      var p := ZeroPad(NatToString(us), 6);
      PaddedRoundTrip(us, 6);
      var d := RStripZeros(p);
      assert Fraction(us) == "." + d;
      forall i | 1 <= i < |Fraction(us)| ensures IsDigit(Fraction(us)[i]) {
        assert Fraction(us)[i] == p[i - 1];
      }
    }
  }
}
