/**
 * `Rfc822`: date-times as section 5 of RFC 822 writes them,
 * `Www, DD Mon YYYY HH:MM:SS zone`, where the zone is `±HHMM` or one of
 * the names of a fixed table.
 */
module Rfc822 {
  import opened Wrappers
  import opened Strings
  import opened Calendar
  import opened Tz
  import opened DateTimes

  /** `WEEKDAYS`, indexed by `date.weekday()`. */
  const WeekdayNames: seq<string> := ["Mon", "Tue", "Wed", "Thu", "Fri", "Sat", "Sun"]

  /** `MONTHS`, indexed by the month number less one. */
  const MonthNames: seq<string> :=
    ["Jan", "Feb", "Mar", "Apr", "May", "Jun", "Jul", "Aug", "Sep", "Oct", "Nov", "Dec"]

  /** `TIMEZONES`: each name and its offset in minutes east of UTC. */
  const NamedZones: map<string, int> := map[
    "UT" := 0, "UTC" := 0, "GMT" := 0,
    "EST" := -300, "EDT" := -240, "CST" := -360, "CDT" := -300,
    "MST" := -420, "MDT" := -360, "PST" := -480,
    "1A" := -60, "1B" := -120, "1C" := -180, "1D" := -240, "1E" := -300,
    "1F" := -360, "1G" := -420, "1H" := -480, "1I" := -540, "1K" := -600,
    "1L" := -660, "1M" := -720, "1N" := 60, "1O" := 120, "1P" := 180,
    "1Q" := 240, "1R" := 300, "1S" := 360, "1T" := 420, "1U" := 480,
    "1V" := 540, "1W" := 600, "1X" := 660, "1Y" := 720, "1Z" := 0]

  /** `%H:%M:%S`. */
  const TimePattern: Template := Field(2, Literal(':', Field(2, Literal(':', Field(2, End)))))

  // ------------------------------------------------------------- writing

  /**
   * The zone as `encode` writes it: the hours and minutes of
   * `timedelta.seconds`, which is the offset taken modulo one day, so the
   * sign is always `+`.
   */
  function ZoneAsWritten(offset: int): string
  {
    var m := offset % 1440;
    "+" + TwoDigits(m / 60) + TwoDigits(m % 60)
  }

  /** The intended zone: the sign, then the hours and minutes of the magnitude. */
  function Zone(offset: int): string
  {
    var a := if offset < 0 then -offset else offset;
    (if offset < 0 then "-" else "+") + TwoDigits(a / 60) + TwoDigits(a % 60)
  }

  /** The six words `encode` writes, the last one being the zone. */
  function EncodedWords(c: Civil, zone: string): seq<string>
    requires ValidCivil(c)
  {
    WordsOn(Weekday(c.year, c.month, c.day), c, zone)
  }

  /** The six words, given the index of the weekday. */
  function WordsOn(k: int, c: Civil, zone: string): seq<string>
    requires 0 <= k < 7 && ValidCivil(c)
  {
    [WeekdayNames[k] + ",", TwoDigits(c.day), MonthNames[c.month - 1],
     Four(c.year), Fill(TimePattern, [c.hour, c.minute, c.second]), zone]
  }

  /**
   * `Rfc822().encode(value)` as written: only aware `datetime` values are
   * accepted, anything else is an `EncodeError`.
   */
  function EncodeAsWritten(value: Arg<DateTime>): (r: Result<string>)
    requires value.Instance? ==> WellFormed(value.value)
    ensures r.Err? <==> value.OtherType? || value.value.tz.None?
    ensures r.Err? ==> r.error == EncodeError
  {
    if value.OtherType? || value.value.tz.None? then Err(EncodeError)
    else
      var d := value.value;
      Ok(Join(EncodedWords(d.civil, ZoneAsWritten(UtcOffset(d.tz.value))), " "))
  }

  /** `Rfc822().encode(value)` with the zone signed as intended. */
  function Encode(value: Arg<DateTime>): (r: Result<string>)
    requires value.Instance? ==> WellFormed(value.value)
    ensures r.Err? <==> value.OtherType? || value.value.tz.None?
    ensures r.Err? ==> r.error == EncodeError
  {
    if value.OtherType? || value.value.tz.None? then Err(EncodeError)
    else
      var d := value.value;
      Ok(Join(EncodedWords(d.civil, Zone(UtcOffset(d.tz.value))), " "))
  }

  // ------------------------------------------------------------- reading

  /** `Www,` with any weekday name in any ASCII case. */
  predicate IsWeekdayWord(w: string)
  {
    |w| == 4 && w[3] == ',' && exists k :: 0 <= k < |WeekdayNames| && EqualIgnoringCase(w[..3], WeekdayNames[k])
  }

  /** A month name in any ASCII case, as the pattern accepts it. */
  predicate IsMonthWord(w: string)
  {
    exists k :: 0 <= k < |MonthNames| && EqualIgnoringCase(w, MonthNames[k])
  }

  /** A zone name of the table in any ASCII case, as the pattern accepts it. */
  predicate IsZoneName(w: string)
  {
    exists k :: k in NamedZones && EqualIgnoringCase(w, k)
  }

  /** `[+-]HH:?MM`: the sign, the hours and the minutes of a numeric zone. */
  function NumericZone(z: string): (r: Option<(char, nat, nat)>)
    ensures r.Some? ==> (|z| == 5 || |z| == 6) && z[0] == r.value.0 && (z[0] == '+' || z[0] == '-')
  {
    if (|z| == 5 || (|z| == 6 && z[3] == ':')) && (z[0] == '+' || z[0] == '-')
       && AllDigits(z[1..3]) && AllDigits(z[|z| - 2..])
    then Some((z[0], ParseDigits(z[1..3]), ParseDigits(z[|z| - 2..])))
    else None
  }

  /** `MONTHS.index(name)`: the first position of `name`, compared exactly. */
  function MonthIndex(name: string): (r: Option<nat>)
    ensures r.Some? ==> r.value < |MonthNames| && MonthNames[r.value] == name
    ensures r.Some? ==> forall j :: 0 <= j < r.value ==> MonthNames[j] != name
    ensures r.None? <==> name !in MonthNames
  {
    IndexFrom(MonthNames, name, 0)
  }

  function IndexFrom(names: seq<string>, name: string, i: nat): (r: Option<nat>)
    requires i <= |names|
    requires forall j :: 0 <= j < i ==> names[j] != name
    ensures r.Some? ==> i <= r.value < |names| && names[r.value] == name
    ensures r.Some? ==> forall j :: 0 <= j < r.value ==> names[j] != name
    ensures r.None? <==> name !in names
    decreases |names| - i
  {
    if i == |names| then None
    else if names[i] == name then Some(i)
    else IndexFrom(names, name, i + 1)
  }

  /** The groups of a match of `PATTERN`. */
  datatype Fields = Fields(day: nat, month: string, year: nat,
                           hour: nat, minute: nat, second: nat, zone: string)

  /**
   * Matches the whitespace-separated words of the text against `PATTERN`:
   * a weekday and a comma, a one- or two-digit day, a month name, a
   * four-digit year, `HH:MM:SS` and a zone.  Names are matched ignoring
   * ASCII case.
   */
  function Match(w: seq<string>): (r: Option<Fields>)
    ensures r.Some? ==> |w| == 6 && IsWeekdayWord(w[0]) && r.value.month == w[2] && r.value.zone == w[5]
    ensures r.Some? ==> IsMonthWord(r.value.month)
    ensures r.Some? ==> NumericZone(r.value.zone).Some? || IsZoneName(r.value.zone)
  {
    if |w| == 6 && IsWeekdayWord(w[0]) && 1 <= |w[1]| <= 2 && AllDigits(w[1]) && IsMonthWord(w[2])
       && |w[3]| == 4 && AllDigits(w[3]) && (NumericZone(w[5]).Some? || IsZoneName(w[5]))
    then
      match Scan(TimePattern, w[4])
      case Some((t, rest)) =>
        TimeArity();
        if rest == [] then Some(Fields(ParseDigits(w[1]), w[2], ParseDigits(w[3]), t[0], t[1], t[2], w[5]))
        else None
      case None => None
    else None
  }

  lemma TimeArity()
    ensures Arity(TimePattern) == 3
  {
  }

  /** `TIMEZONES[name]`: the lookup is exact, so a name in another case is a `KeyError`. */
  function NamedZone(name: string): (r: Result<TzInfo>)
    ensures r.Ok? <==> name in NamedZones
    ensures r.Ok? ==> r.value == MakeFixedOffset(NamedZones[name], None)
    ensures r.Err? ==> r.error == KeyError
  {
    if name in NamedZones then Ok(MakeFixedOffset(NamedZones[name], None)) else Err(KeyError)
  }

  /** The zone as `decode` reads it: the sign of a numeric zone applies to its minutes only. */
  function ZoneOfAsWritten(z: string): Result<TzInfo>
  {
    match NumericZone(z)
    case Some((sign, h, m)) => Ok(MakeFixedOffset(h * 60 + m * (if sign == '+' then 1 else -1), None))
    case None => NamedZone(z)
  }

  /** The intended reading: the sign applies to the whole offset. */
  function ZoneOf(z: string): (r: Result<TzInfo>)
    ensures NumericZone(z).Some? ==> r.Ok? && r.value.FixedOffset?
    ensures NumericZone(z).None? ==> r == NamedZone(z)
  {
    match NumericZone(z)
    case Some((sign, h, m)) => Ok(MakeFixedOffset(if sign == '-' then -(h * 60 + m) else h * 60 + m, None))
    case None => NamedZone(z)
  }

  /**
   * The value a match stands for: an exact month name is required, else
   * `DecodeError`; then the zone, whose lookup may fail; then `datetime`
   * refuses impossible fields with a `ValueError`, which `decode` lets
   * through.
   */
  function Build(f: Fields, tz: Result<TzInfo>): (r: Result<DateTime>)
    ensures r.Ok? ==> tz.Ok? && r.value.tz == Some(tz.value) && WellFormed(r.value) && r.value.civil.microsecond == 0
    ensures r.Ok? ==> MonthIndex(f.month).Some? && r.value.civil == Civil(f.year, MonthIndex(f.month).value + 1, f.day, f.hour, f.minute, f.second, 0)
    ensures MonthIndex(f.month).None? ==> r == Err(DecodeError)
    ensures MonthIndex(f.month).Some? && tz.Err? ==> r == Err(tz.error)
  {
    match MonthIndex(f.month)
    case None => Err(DecodeError)
    case Some(k) =>
      match tz
      case Err(e) => Err(e)
      case Ok(zone) =>
        var c := Civil(f.year, k + 1, f.day, f.hour, f.minute, f.second, 0);
        if ValidCivil(c) then Ok(DateTime(c, Some(zone))) else Err(ValueError)
  }

  /** `Rfc822().decode(text)` as written. */
  function DecodeAsWritten(text: string): (r: Result<DateTime>)
    ensures r.Ok? ==> WellFormed(r.value) && r.value.civil.microsecond == 0 && r.value.tz.Some?
  {
    match Match(Words(text))
    case None => Err(DecodeError)
    case Some(f) => Build(f, ZoneOfAsWritten(f.zone))
  }

  /**
   * `Rfc822().decode(text)` with the sign of a numeric zone applied to the
   * whole offset.  A text that does not match is a `DecodeError`, as is a
   * month name in the wrong case; a zone name in the wrong case is a
   * `KeyError` and impossible fields a `ValueError`.
   */
  function Decode(text: string): (r: Result<DateTime>)
    ensures r.Ok? ==> WellFormed(r.value) && r.value.civil.microsecond == 0
                      && r.value.tz.Some? && r.value.tz.value.FixedOffset?
    ensures r.Err? ==> r.error == DecodeError || r.error == KeyError || r.error == ValueError
  {
    match Match(Words(text))
    case None => Err(DecodeError)
    case Some(f) => Build(f, ZoneOf(f.zone))
  }

  // ------------------------------------------------------------ round trip

  lemma NameShapes()
    ensures forall k :: 0 <= k < |WeekdayNames| ==> |WeekdayNames[k]| == 3 && NoSpace(WeekdayNames[k])
    ensures forall k :: 0 <= k < |MonthNames| ==> |MonthNames[k]| == 3 && NoSpace(MonthNames[k])
  {
  }

  /** The weekday word `encode` writes is one the pattern accepts. */
  lemma {:induction false} WeekdayWordOf(k: int)
    requires 0 <= k < |WeekdayNames|
    ensures var w := WeekdayNames[k] + ","; w != [] && NoSpace(w) && IsWeekdayWord(w)
  {
    NameShapes();
    var w := WeekdayNames[k] + ",";
    assert w[..3] == WeekdayNames[k];
    assert EqualIgnoringCase(w[..3], WeekdayNames[k]);
  }

  /** Every month name is found at its own position. */
  lemma {:induction false} MonthIndexOf(k: int)
    requires 0 <= k < |MonthNames|
    ensures IsMonthWord(MonthNames[k]) && MonthIndex(MonthNames[k]) == Some(k)
  {
    assert EqualIgnoringCase(MonthNames[k], MonthNames[k]);
    FirstIndex(MonthNames, k);
  }

  /** In a list without repetitions, each name is first found at its own position. */
  lemma FirstIndex(names: seq<string>, k: int)
    requires 0 <= k < |names|
    requires forall i, j :: 0 <= i < j < |names| ==> names[i] != names[j]
    ensures IndexFrom(names, names[k], 0) == Some(k)
  {
    assert names[k] in names;
  }

  /** `%H:%M:%S` reads back as the three fields. */
  lemma {:induction false} TimeRoundTrip(h: nat, m: nat, sec: nat)
    requires h < 100 && m < 100 && sec < 100
    ensures var t := Fill(TimePattern, [h, m, sec]);
            t != [] && NoSpace(t) && Scan(TimePattern, t) == Some(([h, m, sec], ""))
  {
    assert Pow10(1) == 10 && Pow10(2) == 100;
    var v := [h, m, sec];
    assert v[1..] == [m, sec] && v[1..][1..] == [sec] && v[1..][1..][1..] == [];
    assert Fits(TimePattern.next.next.next.next, v[1..][1..]);
    assert Fits(TimePattern.next.next, v[1..]);
    assert Fits(TimePattern, v);
    ScanFill(TimePattern, v, "");
    var t := Fill(TimePattern, v);
    assert t + "" == t;
    FillNoSpace(TimePattern, v);
  }

  /** Two zero-padded digits fill their two characters. */
  lemma {:induction false} ZoneDigits(sign: char, h: nat, m: nat)
    requires h < 100 && m < 100 && (sign == '+' || sign == '-')
    ensures var z := [sign] + TwoDigits(h) + TwoDigits(m);
            |z| == 5 && NoSpace(z) && NumericZone(z) == Some((sign, h, m))
  {
    TwoDigitsShape(h);
    TwoDigitsShape(m);
    var z := [sign] + TwoDigits(h) + TwoDigits(m);
    assert z[1..3] == TwoDigits(h);
    assert z[3..5] == TwoDigits(m);
  }

  /** The intended zone of an offset under 100 hours reads back as the offset. */
  lemma {:induction false} ZoneRoundTrip(offset: int)
    requires -6000 < offset < 6000
    ensures |Zone(offset)| == 5 && NoSpace(Zone(offset)) && NumericZone(Zone(offset)).Some?
    ensures ZoneOf(Zone(offset)) == Ok(MakeFixedOffset(offset, None))
  {
    var a := if offset < 0 then -offset else offset;
    var sign := if offset < 0 then '-' else '+';
    ZoneDigits(sign, a / 60, a % 60);
    assert Zone(offset) == [sign] + TwoDigits(a / 60) + TwoDigits(a % 60);
  }

  /** The zone as written reads back as the offset modulo one day. */
  lemma {:induction false} ZoneAsWrittenReadsBack(offset: int)
    ensures |ZoneAsWritten(offset)| == 5 && NoSpace(ZoneAsWritten(offset)) && NumericZone(ZoneAsWritten(offset)).Some?
    ensures ZoneOf(ZoneAsWritten(offset)) == Ok(MakeFixedOffset(offset % 1440, None))
    ensures ZoneOfAsWritten(ZoneAsWritten(offset)) == Ok(MakeFixedOffset(offset % 1440, None))
  {
    var m := offset % 1440;
    ZoneDigits('+', m / 60, m % 60);
    assert ZoneAsWritten(offset) == ['+'] + TwoDigits(m / 60) + TwoDigits(m % 60);
    EastZone(ZoneAsWritten(offset), m / 60, m % 60, m);
  }

  /** Both readings agree on a zone east of UTC. */
  lemma EastZone(z: string, h: nat, m: nat, offset: int)
    requires NumericZone(z) == Some(('+', h, m)) && offset == h * 60 + m
    ensures ZoneOf(z) == Ok(MakeFixedOffset(offset, None))
    ensures ZoneOfAsWritten(z) == Ok(MakeFixedOffset(offset, None))
  {
  }

  /**
   * As written, `decode` reads an intended negative zone `-HHMM` as
   * `HH` hours east less `MM` minutes.
   */
  lemma ZoneOfAsWrittenWest(h: nat, m: nat, offset: int)
    requires h < 100 && m < 100 && offset == h * 60 - m
    ensures ZoneOfAsWritten(['-'] + TwoDigits(h) + TwoDigits(m)) == Ok(MakeFixedOffset(offset, None))
  {
    ZoneDigits('-', h, m);
  }

  /** Splitting the written text on whitespace gives back the six words. */
  lemma {:induction false} WordsOfEncoded(c: Civil, zone: string)
    requires ValidCivil(c) && zone != [] && NoSpace(zone)
    ensures Words(Join(EncodedWords(c, zone), " ")) == EncodedWords(c, zone)
  {
    var w := EncodedWords(c, zone);
    forall i | 0 <= i < |w| ensures w[i] != [] && NoSpace(w[i]) {
      if i == 0 {
        WeekdayWordOf(Weekday(c.year, c.month, c.day));
      } else if i == 1 {
        TwoDigitsShape(c.day);
        DigitsNoSpace(w[1]);
      } else if i == 2 {
        NameShapes();
      } else if i == 3 {
        FourShape(c.year);
        DigitsNoSpace(w[3]);
      } else if i == 4 {
        TimeRoundTrip(c.hour, c.minute, c.second);
      }
    }
    WordsJoin(w);
  }

  /** The six written words match the pattern, with the fields of the value. */
  lemma {:induction false} MatchEncoded(c: Civil, zone: string)
    requires ValidCivil(c) && NumericZone(zone).Some?
    ensures Match(EncodedWords(c, zone))
            == Some(Fields(c.day, MonthNames[c.month - 1], c.year, c.hour, c.minute, c.second, zone))
  {
    MatchOn(Weekday(c.year, c.month, c.day), c, zone);
  }

  lemma {:induction false} MatchOn(k: int, c: Civil, zone: string)
    requires 0 <= k < 7 && ValidCivil(c) && NumericZone(zone).Some?
    ensures Match(WordsOn(k, c, zone))
            == Some(Fields(c.day, MonthNames[c.month - 1], c.year, c.hour, c.minute, c.second, zone))
  {
    var wd := WeekdayNames[k] + ",";
    var mn := MonthNames[c.month - 1];
    var tt := Fill(TimePattern, [c.hour, c.minute, c.second]);
    WeekdayWordOf(k);
    TwoDigitsShape(c.day);
    MonthIndexOf(c.month - 1);
    FourShape(c.year);
    TimeRoundTrip(c.hour, c.minute, c.second);
    MatchWords(wd, TwoDigits(c.day), mn, Four(c.year), tt, zone, [c.hour, c.minute, c.second]);
  }

  /** Six words of the right shapes match, with the fields they spell. */
  lemma MatchWords(wd: string, dd: string, mn: string, yy: string, tt: string, zone: string, t: seq<nat>)
    requires IsWeekdayWord(wd) && 1 <= |dd| <= 2 && AllDigits(dd) && IsMonthWord(mn)
    requires |yy| == 4 && AllDigits(yy) && NumericZone(zone).Some?
    requires Scan(TimePattern, tt) == Some((t, ""))
    ensures |t| == 3
    ensures Match([wd, dd, mn, yy, tt, zone])
            == Some(Fields(ParseDigits(dd), mn, ParseDigits(yy), t[0], t[1], t[2], zone))
  {
    TimeArity();
  }

  /** A match of a written value builds the value back, without its microseconds. */
  lemma {:induction false} BuildEncoded(c: Civil, zone: string, tz: TzInfo)
    requires ValidCivil(c)
    ensures Build(Fields(c.day, MonthNames[c.month - 1], c.year, c.hour, c.minute, c.second, zone), Ok(tz))
            == Ok(DateTime(c.(microsecond := 0), Some(tz)))
  {
    MonthIndexOf(c.month - 1);
  }

  /** The written words read back as the value, in the zone their last word names. */
  lemma {:induction false} DecodeEncoded(c: Civil, zone: string, tz: TzInfo)
    requires ValidCivil(c) && NumericZone(zone).Some? && NoSpace(zone) && ZoneOf(zone) == Ok(tz)
    ensures Decode(Join(EncodedWords(c, zone), " ")) == Ok(DateTime(c.(microsecond := 0), Some(tz)))
  {
    WordsOfEncoded(c, zone);
    MatchEncoded(c, zone);
    BuildEncoded(c, zone, tz);
  }

  /** The same, for the reading `decode` does as written. */
  lemma {:induction false} DecodeAsWrittenEncoded(c: Civil, zone: string, tz: TzInfo)
    requires ValidCivil(c) && NumericZone(zone).Some? && NoSpace(zone) && ZoneOfAsWritten(zone) == Ok(tz)
    ensures DecodeAsWritten(Join(EncodedWords(c, zone), " ")) == Ok(DateTime(c.(microsecond := 0), Some(tz)))
  {
    WordsOfEncoded(c, zone);
    MatchEncoded(c, zone);
    BuildEncoded(c, zone, tz);
  }

  /**
   * Every aware value whose offset is under 100 hours reads back as itself
   * without its microseconds, its zone an unnamed `FixedOffset` (a zero
   * offset is `+0000`, not `utc`).
   */
  /** What `encode` writes for an aware value. */
  lemma EncodedText(d: DateTime)
    requires WellFormed(d) && d.tz.Some?
    ensures Encode(Instance(d)) == Ok(Join(EncodedWords(d.civil, Zone(UtcOffset(d.tz.value))), " "))
  { }

  lemma {:induction false} RoundTrip(d: DateTime)
    requires WellFormed(d) && d.tz.Some? && -6000 < UtcOffset(d.tz.value) < 6000
    ensures Encode(Instance(d)).Ok?
    ensures Decode(Encode(Instance(d)).value)
            == Ok(DateTime(d.civil.(microsecond := 0), Some(MakeFixedOffset(UtcOffset(d.tz.value), None))))
  {
    var o := UtcOffset(d.tz.value);
    var z := Zone(o);
    assert Encode(Instance(d)) == Ok(Join(EncodedWords(d.civil, z), " "));
    ZoneRoundTrip(o);
    DecodeEncoded(d.civil, z, MakeFixedOffset(o, None));
  }

  /**
   * As written, every offset is written modulo one day with a `+` sign,
   * so a value west of UTC reads back a day further east: a different
   * instant.
   */
  lemma {:induction false} EncodeAsWrittenReadsBack(d: DateTime)
    requires WellFormed(d) && d.tz.Some?
    ensures EncodeAsWritten(Instance(d)).Ok?
    ensures DecodeAsWritten(EncodeAsWritten(Instance(d)).value)
            == Ok(DateTime(d.civil.(microsecond := 0), Some(MakeFixedOffset(UtcOffset(d.tz.value) % 1440, None))))
    ensures Decode(EncodeAsWritten(Instance(d)).value)
            == Ok(DateTime(d.civil.(microsecond := 0), Some(MakeFixedOffset(UtcOffset(d.tz.value) % 1440, None))))
  {
    var o := UtcOffset(d.tz.value);
    var z := ZoneAsWritten(o);
    assert EncodeAsWritten(Instance(d)) == Ok(Join(EncodedWords(d.civil, z), " "));
    ZoneAsWrittenReadsBack(o);
    DecodeEncoded(d.civil, z, MakeFixedOffset(o % 1440, None));
    DecodeAsWrittenEncoded(d.civil, z, MakeFixedOffset(o % 1440, None));
  }

  /**
   * As written, `decode` applies the sign of `-HHMM` to the minutes only,
   * so a zone a whole number of hours west of UTC reads back as the same
   * number of hours east of it: `-0500` as five hours east.
   */
  lemma {:induction false} DecodeAsWrittenWest(c: Civil, h: nat)
    requires ValidCivil(c) && 0 < h < 100
    ensures var d := DateTime(c, Some(MakeFixedOffset(-(h * 60), None)));
            Encode(Instance(d)).Ok?
            && DecodeAsWritten(Encode(Instance(d)).value)
               == Ok(DateTime(c.(microsecond := 0), Some(MakeFixedOffset(h * 60, None))))
  {
    var d := DateTime(c, Some(MakeFixedOffset(-(h * 60), None)));
    var z := Zone(-(h * 60));
    assert z == ['-'] + TwoDigits(h) + TwoDigits(0);
    assert UtcOffset(d.tz.value) == -(h * 60);
    assert Zone(UtcOffset(d.tz.value)) == z;
    EncodedText(d);
    ZoneDigits('-', h, 0);
    ZoneOfAsWrittenWest(h, 0, h * 60);
    DecodeAsWrittenEncoded(c, z, MakeFixedOffset(h * 60, None));
  }

  /** The weekday word is checked for its shape only: any other weekday matches alike. */
  lemma {:induction false} MatchIgnoresWeekday(w: seq<string>, v: seq<string>)
    requires |w| == |v| >= 1 && w[1..] == v[1..] && IsWeekdayWord(w[0]) && IsWeekdayWord(v[0])
    ensures Match(w) == Match(v)
  {
    if |w| == 6 {
      assert w[1] == w[1..][0] == v[1];
      assert w[2] == w[1..][1] == v[2];
      assert w[3] == w[1..][2] == v[3];
      assert w[4] == w[1..][3] == v[4];
      assert w[5] == w[1..][4] == v[5];
    }
  }

  /** Hence `decode` gives the same result whatever the weekday. */
  lemma {:induction false} DecodeIgnoresWeekday(text: string, other: string)
    requires |Words(text)| == |Words(other)| >= 1 && Words(text)[1..] == Words(other)[1..]
    requires IsWeekdayWord(Words(text)[0]) && IsWeekdayWord(Words(other)[0])
    ensures Decode(text) == Decode(other)
    ensures DecodeAsWritten(text) == DecodeAsWritten(other)
  {
    MatchIgnoresWeekday(Words(text), Words(other));
  }

  /** The pattern accepts a month name in any case but `MONTHS.index` does not. */
  lemma MonthCase()
    ensures IsMonthWord("sep") && MonthIndex("sep").None?
  {
    assert EqualIgnoringCase("sep", MonthNames[8]);
    forall k | 0 <= k < |MonthNames| ensures MonthNames[k] != "sep" {
      assert MonthNames[k][0] != 's';
    }
  }

  /** The pattern accepts a zone name in any case but the table lookup does not. */
  lemma ZoneNameCase()
    ensures IsZoneName("gmt") && ZoneOf("gmt") == Err(KeyError)
  {
    assert "GMT" in NamedZones;
    assert EqualIgnoringCase("gmt", "GMT");
    assert "gmt" !in NamedZones;
  }

  /** `GMT` names a zero offset. */
  lemma ZoneNameGmt()
    ensures ZoneOf("GMT") == Ok(MakeFixedOffset(0, None))
  {
    assert NumericZone("GMT").None?;
    assert "GMT" in NamedZones;
  }
}
